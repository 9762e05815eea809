/** The byte-wise order of tag ids and strictly sorted id lists. */
module Ids {

  /** Lexicographic order. */
  predicate Less(a: string, b: string)
  {
    b != [] && (a == [] || a[0] < b[0] || (a[0] == b[0] && Less(a[1..], b[1..])))
  }

  lemma {:induction false} LessIsStrictTotal(a: string, b: string)
    ensures !(Less(a, b) && Less(b, a))
    ensures a != b <==> Less(a, b) || Less(b, a)
  {
    if a != [] && b != [] && a[0] == b[0] {
      LessIsStrictTotal(a[1..], b[1..]);
      assert a == [a[0]] + a[1..] && b == [b[0]] + b[1..];
    }
  }

  /** At their first difference the lesser id has the lesser character, or ends. */
  predicate LessAt(a: string, b: string, k: nat)
  {
    k <= |a| && k < |b| && a[..k] == b[..k] && (k == |a| || a[k] < b[k])
  }

  lemma {:induction false} LessAtFirstDifference(a: string, b: string)
    ensures Less(a, b) <==> exists k: nat :: LessAt(a, b, k)
  {
    if a == [] || b == [] || a[0] != b[0] {
      assert LessAt(a, b, 0) <==> Less(a, b);
      forall k: nat | k > 0 && k <= |a| && k <= |b| ensures a[..k][0] == a[0] && b[..k][0] == b[0] {
      }
    } else {
      LessAtFirstDifference(a[1..], b[1..]);
      if k: nat :| LessAt(a[1..], b[1..], k) {
        assert a[..k + 1] == [a[0]] + a[1..][..k] && b[..k + 1] == [b[0]] + b[1..][..k];
        assert LessAt(a, b, k + 1);
      }
      if k: nat :| LessAt(a, b, k) {
        assert a[1..][..k - 1] == a[..k][1..] && b[1..][..k - 1] == b[..k][1..];
        assert LessAt(a[1..], b[1..], k - 1);
      }
    }
  }

  lemma {:induction false} LessIsTransitive(a: string, b: string, c: string)
    requires Less(a, b) && Less(b, c)
    ensures Less(a, c)
  {
    if a != [] && a[0] == b[0] && b[0] == c[0] {
      LessIsTransitive(a[1..], b[1..], c[1..]);
    }
  }

  predicate StrictlySorted(ids: seq<string>)
  {
    forall i, j :: 0 <= i < j < |ids| ==> Less(ids[i], ids[j])
  }

  /** Two strictly sorted lists with the same members are the same list. */
  lemma {:induction false} SortedListIsUnique(a: seq<string>, b: seq<string>)
    requires StrictlySorted(a) && StrictlySorted(b)
    requires forall x :: x in a <==> x in b
    ensures a == b
  {
    if a == [] {
      HasMember(b);
    } else {
      assert a[0] in b;
      HeadsAgree(a, b);
      forall x ensures x in a[1..] <==> x in b[1..] {
        TailMembers(a, x);
        TailMembers(b, x);
      }
      SortedListIsUnique(a[1..], b[1..]);
    }
  }

  lemma {:induction false} HasMember(b: seq<string>)
    ensures b != [] ==> exists x :: x in b
  {
    if b != [] {
      assert b[0] in b;
    }
  }

  lemma {:induction false} TailMembers(a: seq<string>, x: string)
    requires StrictlySorted(a) && a != []
    ensures x in a[1..] <==> x in a && x != a[0]
  {
    LessIsStrictTotal(a[0], a[0]);
    if x in a && x != a[0] {
      var i :| 0 <= i < |a| && a[i] == x;
      assert a[1..][i - 1] == x;
    }
  }

  lemma {:induction false} HeadsAgree(a: seq<string>, b: seq<string>)
    requires StrictlySorted(a) && StrictlySorted(b) && a != [] && b != []
    requires a[0] in b && b[0] in a
    ensures a[0] == b[0]
  {
    var i :| 0 <= i < |b| && b[i] == a[0];
    var j :| 0 <= j < |a| && a[j] == b[0];
    LessIsStrictTotal(a[0], b[0]);
  }

  /** The list with `id` put where it keeps the list sorted. */
  function Inserted(ids: seq<string>, id: string): (r: seq<string>)
    ensures |r| == |ids| + 1
  {
    if ids == [] then [id]
    else if Less(ids[|ids| - 1], id) then ids + [id]
    else Inserted(ids[..|ids| - 1], id) + [ids[|ids| - 1]]
  }

  lemma {:induction false} InsertedStaysSorted(ids: seq<string>, id: string)
    requires StrictlySorted(ids) && id !in ids
    ensures StrictlySorted(Inserted(ids, id))
    ensures forall x :: x in Inserted(ids, id) <==> x in ids || x == id
  {
    if ids != [] {
      var init, last := ids[..|ids| - 1], ids[|ids| - 1];
      assert ids == init + [last];
      LessIsStrictTotal(last, id);
      if Less(last, id) {
        forall i | 0 <= i < |ids| ensures Less(ids[i], id) {
          if i < |init| {
            LessIsTransitive(ids[i], last, id);
          }
        }
      } else {
        InsertedStaysSorted(init, id);
        var r := Inserted(init, id);
        forall i | 0 <= i < |r| ensures Less(r[i], last) {
          assert r[i] in r;
        }
      }
    }
  }

  /** Binary search as the store uses it: the place where `id` is, or belongs. */
  method BinarySearch(ids: seq<string>, id: string) returns (found: bool, pos: nat)
    requires StrictlySorted(ids)
    ensures found <==> id in ids
    ensures pos <= |ids|
    ensures found ==> pos < |ids| && ids[pos] == id
    ensures forall i :: 0 <= i < pos ==> Less(ids[i], id)
    ensures !found ==> forall i :: pos <= i < |ids| ==> Less(id, ids[i])
  {
    var lo, hi := 0, |ids|;
    while lo < hi
      invariant 0 <= lo <= hi <= |ids|
      invariant forall i :: 0 <= i < lo ==> Less(ids[i], id)
      invariant forall i :: hi <= i < |ids| ==> Less(id, ids[i])
    {
      var mid := (lo + hi) / 2;
      LessIsStrictTotal(ids[mid], id);
      if ids[mid] == id {
        return true, mid;
      } else if Less(ids[mid], id) {
        forall i | 0 <= i < mid ensures Less(ids[i], id) {
          LessIsTransitive(ids[i], ids[mid], id);
        }
        lo := mid + 1;
      } else {
        forall i | mid < i < |ids| ensures Less(id, ids[i]) {
          LessIsTransitive(id, ids[mid], ids[i]);
        }
        hi := mid;
      }
    }
    LessIsStrictTotal(id, id);
    found, pos := false, lo;
  }

  /** Inserting at the place binary search finds is inserting in order. */
  lemma {:induction false} InsertedAt(ids: seq<string>, id: string, pos: nat)
    requires pos <= |ids|
    requires forall i :: 0 <= i < pos ==> Less(ids[i], id)
    requires forall i :: pos <= i < |ids| ==> Less(id, ids[i])
    ensures Inserted(ids, id) == ids[..pos] + [id] + ids[pos..]
  {
    if ids != [] {
      var n := |ids| - 1;
      LessIsStrictTotal(ids[n], id);
      if pos == |ids| {
        assert Less(ids[n], id);
        assert ids[..pos] == ids && ids[pos..] == [];
      } else {
        assert Less(id, ids[n]);
        InsertedAt(ids[..n], id, pos);
        CutBeforeLast(ids, pos);
      }
    }
  }

  lemma {:induction false} CutBeforeLast(ids: seq<string>, pos: nat)
    requires pos < |ids|
    ensures var init := ids[..|ids| - 1];
            init[..pos] == ids[..pos] && init[pos..] + [ids[|ids| - 1]] == ids[pos..]
  {
  }
}
