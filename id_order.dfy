/**
 * The order in which `Array.prototype.sort()` with no comparator puts record
 * ids, and the "collect distinct ids in a Set, copy them into an array, sort
 * it in place" step that both the ID export and the report assembly perform.
 *
 * The default comparator compares strings by UTF-16 code units, and moves
 * missing (undefined) elements behind every string. Here strings are compared
 * character by character, which is the same order for text inside the Basic
 * Multilingual Plane.
 */
module IdOrder {
  import opened JsText
  import opened Records

  /** Lexicographic order on characters; a proper prefix comes first. */
  predicate StrLess(a: string, b: string)
    decreases |a|
  {
    if a == [] then b != []
    else b != [] && (a[0] < b[0] || (a[0] == b[0] && StrLess(a[1..], b[1..])))
  }

  lemma {:induction false} StrLessIrreflexive(a: string)
    ensures !StrLess(a, a)
    decreases |a|
  {
    if a != [] {
      StrLessIrreflexive(a[1..]);
    }
  }

  lemma {:induction false} StrLessTransitive(a: string, b: string, c: string)
    requires StrLess(a, b) && StrLess(b, c)
    ensures StrLess(a, c)
    decreases |a|
  {
    if a != [] && a[0] == b[0] && b[0] == c[0] {
      StrLessTransitive(a[1..], b[1..], c[1..]);
    }
  }

  lemma {:induction false} StrLessTotal(a: string, b: string)
    requires a != b
    ensures StrLess(a, b) || StrLess(b, a)
    decreases |a|
  {
    if a != [] && b != [] && a[0] == b[0] {
      assert a == [a[0]] + a[1..] && b == [b[0]] + b[1..];
      StrLessTotal(a[1..], b[1..]);
    }
  }

  /** The default sort order on record ids: strings character by character, a missing id last. */
  predicate IdLess(x: RecordId, y: RecordId) {
    match x
    case None => false
    case Some(a) => y.None? || StrLess(a, y.value)
  }

  lemma IdLessIrreflexive(x: RecordId)
    ensures !IdLess(x, x)
  {
    if x.Some? {
      StrLessIrreflexive(x.value);
    }
  }

  lemma IdLessTransitive(x: RecordId, y: RecordId, z: RecordId)
    requires IdLess(x, y) && IdLess(y, z)
    ensures IdLess(x, z)
  {
    if z.Some? {
      StrLessTransitive(x.value, y.value, z.value);
    }
  }

  lemma IdLessAsymmetric(x: RecordId, y: RecordId)
    requires IdLess(x, y)
    ensures !IdLess(y, x)
  {
    if IdLess(y, x) {
      IdLessTransitive(x, y, x);
      IdLessIrreflexive(x);
    }
  }

  lemma IdLessTotal(x: RecordId, y: RecordId)
    requires x != y
    ensures IdLess(x, y) || IdLess(y, x)
  {
    if x.Some? && y.Some? {
      StrLessTotal(x.value, y.value);
    }
  }

  predicate Distinct(s: seq<RecordId>) {
    forall i, j | 0 <= i < j < |s| :: s[i] != s[j]
  }

  /** Strictly ascending: sorted and free of duplicates. */
  predicate StrictlySorted(s: seq<RecordId>) {
    forall i, j | 0 <= i < j < |s| :: IdLess(s[i], s[j])
  }

  /** What an in-place sort guarantees: no neighbour is out of order. */
  predicate NonDescending(s: seq<RecordId>) {
    forall k | 0 < k < |s| :: !IdLess(s[k], s[k - 1])
  }

  lemma {:induction false} NonDescendingDistinctIsStrict(s: seq<RecordId>)
    requires NonDescending(s) && Distinct(s)
    ensures StrictlySorted(s)
  {
    forall k | 0 < k < |s| ensures IdLess(s[k - 1], s[k]) {
      IdLessTotal(s[k - 1], s[k]);
    }
    forall i, j | 0 <= i < j < |s| ensures IdLess(s[i], s[j]) {
      var m := i + 1;
      while m < j
        invariant i < m <= j
        invariant IdLess(s[i], s[m])
      {
        IdLessTransitive(s[i], s[m], s[m + 1]);
        m := m + 1;
      }
    }
  }

  /** Two strictly ascending lists with the same elements are the same list. */
  lemma {:induction false} StrictlySortedUnique(a: seq<RecordId>, b: seq<RecordId>)
    requires StrictlySorted(a) && StrictlySorted(b)
    requires forall x :: x in a <==> x in b
    ensures a == b
  {
    assert a == [] <==> b == [] by {
      if a != [] {
        assert a[0] in b;
      }
      if b != [] {
        assert b[0] in a;
      }
    }
    if a != [] {
      if a[0] != b[0] {
        assert b[0] in a && a[0] in b;
        var k :| 0 <= k < |a| && a[k] == b[0];
        var m :| 0 <= m < |b| && b[m] == a[0];
        assert IdLess(a[0], b[0]);
        assert IdLess(b[0], a[0]);
        IdLessAsymmetric(a[0], b[0]);
      }
      forall x ensures x in a[1..] <==> x in b[1..] {
        if x in a[1..] {
          var k :| 1 <= k < |a| && a[k] == x;
          IdLessIrreflexive(a[0]);
          assert x in b && x != b[0];
        }
        if x in b[1..] {
          var k :| 1 <= k < |b| && b[k] == x;
          IdLessIrreflexive(b[0]);
          assert x in a && x != a[0];
        }
      }
      StrictlySortedUnique(a[1..], b[1..]);
    }
  }

  /** Inserts `x` before the first element it precedes in the sort order. */
  function Insert(x: RecordId, s: seq<RecordId>): (r: seq<RecordId>)
    ensures multiset(r) == multiset(s) + multiset{x}
  {
    if s == [] then [x]
    else if IdLess(s[0], x) then
      assert s == [s[0]] + s[1..];
      [s[0]] + Insert(x, s[1..])
    else [x] + s
  }

  /** A reference sort (insertion sort on sequences). */
  function Sort(s: seq<RecordId>): (r: seq<RecordId>)
    ensures multiset(r) == multiset(s)
  {
    if s == [] then [] else
      assert s == [s[0]] + s[1..];
      Insert(s[0], Sort(s[1..]))
  }

  lemma {:induction false} InsertSorted(x: RecordId, s: seq<RecordId>)
    requires StrictlySorted(s) && x !in s
    ensures StrictlySorted(Insert(x, s))
  {
    if s == [] {
    } else if IdLess(s[0], x) {
      InsertSorted(x, s[1..]);
      var t := Insert(x, s[1..]);
      forall y | y in t ensures IdLess(s[0], y) {
        InsertedFrom(x, s[1..], y);
      }
      ConsSorted(s[0], t);
    } else {
      IdLessTotal(x, s[0]);
      forall j | 0 <= j < |s| ensures IdLess(x, s[j]) {
        if j > 0 {
          IdLessTransitive(x, s[0], s[j]);
        }
      }
      ConsSorted(x, s);
    }
  }

  /** Every element of `Insert(x, s)` is `x` or an element of `s`. */
  lemma InsertedFrom(x: RecordId, s: seq<RecordId>, y: RecordId)
    requires y in Insert(x, s)
    ensures y == x || y in s
  {
    assert y in multiset(Insert(x, s));
  }

  /** Putting an element below all the others in front of a strictly sorted sequence keeps it so. */
  lemma ConsSorted(a: RecordId, t: seq<RecordId>)
    requires StrictlySorted(t)
    requires forall y | y in t :: IdLess(a, y)
    ensures StrictlySorted([a] + t)
  {
    var r := [a] + t;
    forall i, j | 0 <= i < j < |r| ensures IdLess(r[i], r[j]) {
      assert r[j] == t[j - 1];
      if i > 0 {
        assert r[i] == t[i - 1];
      }
    }
  }

  lemma {:induction false} SortSorted(s: seq<RecordId>)
    requires Distinct(s)
    ensures StrictlySorted(Sort(s))
  {
    if s != [] {
      SortSorted(s[1..]);
      assert s[0] !in multiset(s[1..]);
      assert s[0] !in multiset(Sort(s[1..]));
      InsertSorted(s[0], Sort(s[1..]));
    }
  }

  lemma RepeatCounted(s: seq<RecordId>, i: nat, j: nat)
    requires i < j < |s| && s[i] == s[j]
    ensures multiset(s)[s[i]] >= 2
  {
    assert s == s[..j] + [s[j]] + s[j + 1..];
    assert s[i] in multiset(s[..j]);
  }

  lemma {:induction false} DistinctCountedOnce(s: seq<RecordId>, x: RecordId)
    requires Distinct(s)
    ensures multiset(s)[x] <= 1
  {
    if s != [] {
      assert s == [s[0]] + s[1..];
      DistinctCountedOnce(s[1..], x);
      if x == s[0] {
        assert x !in s[1..];
      }
    }
  }

  lemma DistinctPermutation(a: seq<RecordId>, b: seq<RecordId>)
    requires Distinct(a) && multiset(a) == multiset(b)
    ensures Distinct(b)
  {
    forall i, j | 0 <= i < j < |b| ensures b[i] != b[j] {
      if b[i] == b[j] {
        RepeatCounted(b, i, j);
        DistinctCountedOnce(a, b[i]);
      }
    }
  }

  lemma {:induction false} DistinctCard(s: seq<RecordId>)
    requires Distinct(s)
    ensures |set x | x in s| == |s|
  {
    if s != [] {
      var p := s[..|s| - 1];
      DistinctCard(p);
      assert (set x | x in s) == (set x | x in p) + {s[|s| - 1]};
    }
  }

  /** The distinct record ids of `hits`, in the default sort order. */
  function SortedIds(hits: seq<Hit>): seq<RecordId> {
    Sort(Ids(FirstSeen(hits)))
  }

  /**
   * The sorted id list is strictly ascending, holds exactly the ids that occur
   * in the hits, and is as long as the number of distinct ids.
   */
  lemma SortedIdsSpec(hits: seq<Hit>)
    ensures StrictlySorted(SortedIds(hits))
    ensures forall id :: id in SortedIds(hits) <==> id in Ids(hits)
    ensures |SortedIds(hits)| == |set id | id in Ids(hits)| <= |hits|
  {
    var unique := Ids(FirstSeen(hits));
    FirstSeenDistinct(hits);
    FirstSeenIds(hits);
    SortSorted(unique);
    var r := SortedIds(hits);
    forall id ensures id in r <==> id in unique {
      assert id in r <==> id in multiset(r);
    }
    DistinctCard(unique);
    assert (set id | id in unique) == (set id | id in Ids(hits));
    assert |r| == |multiset(r)| == |multiset(unique)| == |unique|;
  }

  /** `uniqueIDs.add(record_id)` for every hit, then `Array.from(uniqueIDs)`. */
  method CollectIds(hits: seq<Hit>) returns (unique: seq<RecordId>)
    ensures unique == Ids(FirstSeen(hits))
  {
    var seen: set<RecordId> := {};
    unique := [];
    for i := 0 to |hits|
      invariant unique == Ids(FirstSeen(hits[..i]))
      invariant forall id :: id in seen <==> id in unique
    {
      TakeSnoc(hits, i);
      FirstSeenSnoc(hits[..i], hits[i]);
      IdsAppend(FirstSeen(hits[..i]), hits[i]);
      var id := IdOf(hits[i]);
      if id !in seen {
        seen := seen + {id};
        unique := unique + [id];
      }
    }
    assert hits[..|hits|] == hits;
  }

  /** `ids.sort()`: an insertion sort that moves each element left past its larger neighbours. */
  method SortInPlace(a: array<RecordId>)
    modifies a
    ensures NonDescending(a[..])
    ensures multiset(a[..]) == old(multiset(a[..]))
  {
    for i := 0 to a.Length
      invariant forall k | 0 < k < i :: !IdLess(a[k], a[k - 1])
      invariant multiset(a[..]) == old(multiset(a[..]))
    {
      InsertLeft(a, i);
    }
  }

  /** One pass of the insertion sort: `a[i]` moves left into the sorted prefix `a[..i]`. */
  method InsertLeft(a: array<RecordId>, i: nat)
    requires i < a.Length
    requires forall k | 0 < k < i :: !IdLess(a[k], a[k - 1])
    modifies a
    ensures forall k | 0 < k <= i :: !IdLess(a[k], a[k - 1])
    ensures multiset(a[..]) == old(multiset(a[..]))
    ensures a[i + 1..] == old(a[i + 1..])
  {
    var j := i;
    while j > 0 && IdLess(a[j], a[j - 1])
      invariant 0 <= j <= i
      invariant forall k | 0 < k < j :: !IdLess(a[k], a[k - 1])
      invariant forall k | j < k <= i :: !IdLess(a[k], a[k - 1])
      invariant 0 < j < i ==> !IdLess(a[j + 1], a[j - 1])
      invariant multiset(a[..]) == old(multiset(a[..]))
      invariant a[i + 1..] == old(a[i + 1..])
    {
      IdLessAsymmetric(a[j], a[j - 1]);
      Swap(a, j - 1, j);
      j := j - 1;
    }
  }

  /** Exchanges two elements; the multiset of elements is unchanged. */
  method Swap(a: array<RecordId>, x: nat, y: nat)
    requires x < a.Length && y < a.Length
    modifies a
    ensures a[..] == old(a[..])[x := old(a[y])][y := old(a[x])]
    ensures multiset(a[..]) == old(multiset(a[..]))
  {
    a[x], a[y] := a[y], a[x];
  }

  /**
   * The distinct ids of `hits` as a strictly ascending list: the shared body
   * of the ID export and of the report assembly.
   */
  method DistinctSortedIds(hits: seq<Hit>) returns (ids: seq<RecordId>)
    ensures ids == SortedIds(hits)
    ensures StrictlySorted(ids)
    ensures forall id :: id in ids <==> id in Ids(hits)
    ensures |ids| == |set id | id in Ids(hits)| <= |hits|
  {
    var unique := CollectIds(hits);
    var a := new RecordId[|unique|](i requires 0 <= i < |unique| => unique[i]);
    assert a[..] == unique;
    SortInPlace(a);
    ids := a[..];
    FirstSeenDistinct(hits);
    DistinctPermutation(unique, ids);
    NonDescendingDistinctIsStrict(ids);
    SortedIdsSpec(hits);
    var s := SortedIds(hits);
    forall id ensures id in ids <==> id in s {
      assert id in ids <==> id in multiset(ids);
      assert id in s <==> id in multiset(s);
    }
    StrictlySortedUnique(ids, s);
  }
}
