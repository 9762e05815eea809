/** Per-tag mappings to word-addressed device memory, and sorting them by address. */
module Mappings {
  import opened Words
  import opened WordOrders
  import opened TagModel

  /** Modbus operations a mapping can select. */
  datatype ModbusFunction = Coils | DiscreteInputs | HoldingRegisters | InputRegisters

  /** An address space of a device: a FINS memory area, or the table a Modbus function works on. */
  datatype Space = Area(code: Byte) | Table(op: ModbusFunction)

  /** A tag's place in device memory; `count` is the FINS word count, the Modbus quantity. */
  datatype Mapping = Mapping(
    tagId: string,
    space: Space,
    address: U32,
    count: Word,
    bitOffset: Byte,
    writable: bool,
    order: WordOrder,
    dataType: TagDataType)
  {
    /** First address behind the mapping. */
    function End(): nat
    {
      address + count
    }

    predicate Covers(a: int)
    {
      address <= a < End()
    }
  }

  /** Some mapping of the list covers address `a`. */
  predicate Mapped(ms: seq<Mapping>, a: int)
  {
    exists i :: 0 <= i < |ms| && ms[i].Covers(a)
  }

  predicate Overlap(m: Mapping, n: Mapping)
  {
    m.address < n.End() && n.address < m.End()
  }

  predicate Sorted(ms: seq<Mapping>)
  {
    forall i, j :: 0 <= i < j < |ms| ==> ms[i].address <= ms[j].address
  }

  /** Put `m` behind every mapping with an address not above its own. */
  function InsertByAddress(ms: seq<Mapping>, m: Mapping): (r: seq<Mapping>)
    ensures |r| == |ms| + 1
  {
    if ms == [] then [m]
    else if ms[|ms| - 1].address <= m.address then ms + [m]
    else InsertByAddress(ms[..|ms| - 1], m) + [ms[|ms| - 1]]
  }

  /** The stable sort by address both drivers apply (`sort_by_key`). */
  function SortByAddress(ms: seq<Mapping>): (r: seq<Mapping>)
    ensures |r| == |ms|
  {
    if ms == [] then [] else InsertByAddress(SortByAddress(ms[..|ms| - 1]), ms[|ms| - 1])
  }

  lemma {:induction false} InsertKeepsSorted(ms: seq<Mapping>, m: Mapping)
    requires Sorted(ms)
    ensures Sorted(InsertByAddress(ms, m))
    ensures forall x :: x in InsertByAddress(ms, m) <==> x in ms || x == m
  {
    if ms != [] && m.address < ms[|ms| - 1].address {
      var init, last := ms[..|ms| - 1], ms[|ms| - 1];
      InsertKeepsSorted(init, m);
      assert ms == init + [last];
      var r := InsertByAddress(init, m);
      forall i | 0 <= i < |r| ensures r[i].address <= last.address {
        assert r[i] in r;
      }
    }
  }

  lemma {:induction false} SortSorts(ms: seq<Mapping>)
    ensures Sorted(SortByAddress(ms))
    ensures forall x :: x in SortByAddress(ms) <==> x in ms
  {
    if ms != [] {
      SortSorts(ms[..|ms| - 1]);
      InsertKeepsSorted(SortByAddress(ms[..|ms| - 1]), ms[|ms| - 1]);
      assert ms == ms[..|ms| - 1] + [ms[|ms| - 1]];
    }
  }

  /** The mappings at address `a`, in order. */
  function AtAddress(ms: seq<Mapping>, a: nat): seq<Mapping>
  {
    if ms == [] then []
    else AtAddress(ms[..|ms| - 1], a) + if ms[|ms| - 1].address == a then [ms[|ms| - 1]] else []
  }

  /** The sort is stable: mappings of one address keep their order, and none is lost or doubled. */
  lemma {:induction false} SortIsStable(ms: seq<Mapping>, a: nat)
    ensures Sorted(SortByAddress(ms)) && AtAddress(SortByAddress(ms), a) == AtAddress(ms, a)
  {
    SortSorts(ms);
    if ms != [] {
      SortIsStable(ms[..|ms| - 1], a);
      InsertIsStable(SortByAddress(ms[..|ms| - 1]), ms[|ms| - 1], a);
    }
  }

  lemma {:induction false} InsertIsStable(ms: seq<Mapping>, m: Mapping, a: nat)
    ensures AtAddress(InsertByAddress(ms, m), a) == AtAddress(ms, a) + if m.address == a then [m] else []
  {
    if ms == [] {
      assert [m][..0] == [];
    } else if ms[|ms| - 1].address <= m.address {
      AtLast(ms, m, a);
    } else {
      var init, last := ms[..|ms| - 1], ms[|ms| - 1];
      InsertIsStable(init, m, a);
      AtLast(InsertByAddress(init, m), last, a);
    }
  }

  lemma {:induction false} AtLast(ms: seq<Mapping>, m: Mapping, a: nat)
    ensures AtAddress(ms + [m], a) == AtAddress(ms, a) + if m.address == a then [m] else []
  {
    assert (ms + [m])[..|ms|] == ms;
  }

  predicate DistinctIds(ms: seq<Mapping>)
  {
    forall i, j :: 0 <= i < j < |ms| ==> ms[i].tagId != ms[j].tagId
  }

  lemma {:induction false} InsertKeepsDistinct(ms: seq<Mapping>, m: Mapping)
    requires Sorted(ms) && DistinctIds(ms + [m])
    ensures DistinctIds(InsertByAddress(ms, m))
  {
    if ms != [] && m.address < ms[|ms| - 1].address {
      var init, last := ms[..|ms| - 1], ms[|ms| - 1];
      assert ms == init + [last];
      assert forall i, j :: 0 <= i < j < |init + [m]| ==> (init + [m])[i].tagId != (init + [m])[j].tagId by {
        assert forall i :: 0 <= i < |init| ==> (ms + [m])[i] == init[i];
        assert (ms + [m])[|ms|] == m;
      }
      InsertKeepsDistinct(init, m);
      InsertKeepsSorted(init, m);
      var r := InsertByAddress(init, m);
      forall i | 0 <= i < |r| ensures r[i].tagId != last.tagId {
        assert r[i] in r;
        assert (ms + [m])[|ms| - 1] == last && (ms + [m])[|ms|] == m;
        if r[i] != m {
          var k :| 0 <= k < |init| && init[k] == r[i];
          assert (ms + [m])[k] == r[i];
        }
      }
    }
  }

  lemma {:induction false} SortKeepsDistinct(ms: seq<Mapping>)
    requires DistinctIds(ms)
    ensures DistinctIds(SortByAddress(ms))
  {
    if ms != [] {
      var init, last := ms[..|ms| - 1], ms[|ms| - 1];
      SortKeepsDistinct(init);
      SortSorts(init);
      var s := SortByAddress(init);
      forall i | 0 <= i < |s| ensures s[i].tagId != last.tagId {
        assert s[i] in s;
        var k :| 0 <= k < |init| && init[k] == s[i];
        assert ms[k] == s[i] && ms[|ms| - 1] == last;
      }
      InsertKeepsDistinct(s, last);
    }
  }

  /** The tag ids of a list of mappings. */
  function IdsOf(ms: seq<Mapping>): (ids: seq<string>)
    ensures |ids| == |ms|
  {
    if ms == [] then [] else [ms[0].tagId] + IdsOf(ms[1..])
  }

  /** The mappings of one address space, in configuration order. */
  function InSpace(ms: seq<Mapping>, space: Space): (r: seq<Mapping>)
    ensures |r| <= |ms|
  {
    if ms == [] then []
    else
      var rest := InSpace(ms[..|ms| - 1], space);
      if ms[|ms| - 1].space == space then rest + [ms[|ms| - 1]] else rest
  }

  lemma {:induction false} InSpaceMembers(ms: seq<Mapping>, space: Space)
    ensures forall x :: x in InSpace(ms, space) <==> x in ms && x.space == space
  {
    if ms != [] {
      InSpaceMembers(ms[..|ms| - 1], space);
      assert ms == ms[..|ms| - 1] + [ms[|ms| - 1]];
    }
  }

  /** The mappings of a space are picked one by one, in configuration order. */
  lemma {:induction false} InSpaceNext(ms: seq<Mapping>, m: Mapping, space: Space)
    ensures InSpace([], space) == []
    ensures InSpace(ms + [m], space) == InSpace(ms, space) + if m.space == space then [m] else []
  {
    assert (ms + [m])[..|ms|] == ms;
  }

  lemma {:induction false} InSpaceKeepsDistinct(ms: seq<Mapping>, space: Space)
    requires DistinctIds(ms)
    ensures DistinctIds(InSpace(ms, space))
  {
    if ms != [] {
      var init, last := ms[..|ms| - 1], ms[|ms| - 1];
      InSpaceKeepsDistinct(init, space);
      InSpaceMembers(init, space);
      var r := InSpace(init, space);
      forall i | 0 <= i < |r| ensures r[i].tagId != last.tagId {
        assert r[i] in r;
        var k :| 0 <= k < |init| && init[k] == r[i];
        assert ms[k] == r[i] && ms[|ms| - 1] == last;
      }
    }
  }
}
