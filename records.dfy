/**
 * Search hits as the search service returns them, and the two facts the
 * exporter derives from a list of hits: which hit is the first one seen for
 * each record id (the insertion order of a JavaScript `Set`/`Map` keyed by
 * `record_id`), and how many hits share an id.
 */
module Records {
  import opened JsText

  /** `metadata_fields.record_id`; it may be missing, and a missing id is a key like any other. */
  type RecordId = Option<string>

  /** The `metadata_fields` the exporter reads; every one may be missing. */
  datatype Metadata = Metadata(
    recordId: RecordId,
    origPlace: Option<string>,
    year: Option<string>,
    province: Option<string>,
    diocese: Option<string>,
    country: Option<string>,
    classification: Option<string>,
    issuingAuthority: Option<string>,
    language: Option<string>,
    edition: Option<string>,
    source: Option<string>)

  /** `citation_links`: the document path inside the search service's viewer. */
  datatype CitationLinks = CitationLinks(doc: string)

  /** One element of the service's `results` array. */
  datatype Hit = Hit(metadata: Metadata, citationLinks: Option<CitationLinks>)

  function IdOf(h: Hit): RecordId {
    h.metadata.recordId
  }

  /** The record id of each hit, position by position. */
  function Ids(hits: seq<Hit>): seq<RecordId>
  {
    seq(|hits|, i requires 0 <= i < |hits| => IdOf(hits[i]))
  }

  predicate DistinctIds(hits: seq<Hit>) {
    forall i, j | 0 <= i < j < |hits| :: IdOf(hits[i]) != IdOf(hits[j])
  }

  /**
   * The hits a scan in order keeps when it records a hit only if its id has
   * not been seen before: one hit per distinct id, in order of first appearance.
   */
  function FirstSeen(hits: seq<Hit>): (r: seq<Hit>)
    ensures |r| <= |hits|
  {
    if hits == [] then []
    else
      var rest := FirstSeen(hits[..|hits| - 1]);
      var h := hits[|hits| - 1];
      if IdOf(h) in Ids(rest) then rest else rest + [h]
  }

  /** Position of the leftmost occurrence of `id` in `ids`. */
  function FirstIndex(ids: seq<RecordId>, id: RecordId): (k: nat)
    requires id in ids
    ensures k < |ids| && ids[k] == id
    ensures forall j | 0 <= j < k :: ids[j] != id
  {
    if ids[0] == id then 0 else 1 + FirstIndex(ids[1..], id)
  }

  lemma FirstIndexUnique(ids: seq<RecordId>, id: RecordId, k: nat)
    requires k < |ids| && ids[k] == id
    requires forall j | 0 <= j < k :: ids[j] != id
    ensures FirstIndex(ids, id) == k
  {
  }

  /** The first i + 1 elements are the first i and then element i. */
  lemma TakeSnoc<T>(s: seq<T>, i: nat)
    requires i < |s|
    ensures s[..i + 1] == s[..i] + [s[i]]
  {
  }

  lemma IdsAppend(hits: seq<Hit>, h: Hit)
    ensures Ids(hits + [h]) == Ids(hits) + [IdOf(h)]
  {
  }

  /** One more hit: kept exactly when its id is new. */
  lemma FirstSeenSnoc(hits: seq<Hit>, h: Hit)
    ensures FirstSeen(hits + [h]) ==
      if IdOf(h) in Ids(FirstSeen(hits)) then FirstSeen(hits) else FirstSeen(hits) + [h]
  {
    assert (hits + [h])[..|hits|] == hits;
  }

  /**
   * The state of a scan over `results[..i]` that keeps an insertion-ordered
   * map from ids to values and stores `f(hit)` under the id of each hit whose
   * id it has not seen: the keys, in insertion order, are the ids of the
   * first-seen hits, and each key holds `f` of its first hit.
   */
  ghost predicate FilledUpTo(results: seq<Hit>, i: nat, f: Hit -> string, m: map<RecordId, string>, order: seq<RecordId>)
    requires i <= |results|
  {
    && order == Ids(FirstSeen(results[..i]))
    && (forall id :: id in m <==> id in order)
    && (forall k | 0 <= k < |order| :: m[order[k]] == f(FirstSeen(results[..i])[k]))
  }

  /** Before the first hit the map is empty. */
  lemma FilledStart(results: seq<Hit>, f: Hit -> string)
    ensures FilledUpTo(results, 0, f, map[], [])
  {
    assert results[..0] == [];
  }

  /**
   * One step of the scan: a value is added under the hit's id exactly when
   * the id is new, and that value must be `f` of the hit.
   */
  lemma FilledStep(results: seq<Hit>, i: nat, f: Hit -> string, m: map<RecordId, string>, order: seq<RecordId>, v: string)
    requires i < |results|
    requires FilledUpTo(results, i, f, m, order)
    requires IdOf(results[i]) !in m ==> v == f(results[i])
    ensures var id := IdOf(results[i]);
      if id in m then FilledUpTo(results, i + 1, f, m, order)
      else FilledUpTo(results, i + 1, f, m[id := v], order + [id])
  {
    var id := IdOf(results[i]);
    var fs := FirstSeen(results[..i]);
    TakeSnoc(results, i);
    FirstSeenSnoc(results[..i], results[i]);
    IdsAppend(fs, results[i]);
    if id !in m {
      var m', order', fs' := m[id := v], order + [id], fs + [results[i]];
      assert FirstSeen(results[..i + 1]) == fs';
      forall k | 0 <= k < |order'| ensures m'[order'[k]] == f(fs'[k]) {
        if k < |order| {
          assert order'[k] == order[k] != id;
          assert fs'[k] == fs[k];
        }
      }
    }
  }

  /** When the scan is over, listing the values in key order gives `f` of each first-seen hit. */
  lemma FilledValues(results: seq<Hit>, f: Hit -> string, m: map<RecordId, string>, order: seq<RecordId>, vs: seq<string>)
    requires FilledUpTo(results, |results|, f, m, order)
    requires |vs| == |order|
    requires forall k | 0 <= k < |order| :: vs[k] == m[order[k]]
    ensures |vs| == |FirstSeen(results)|
    ensures forall k | 0 <= k < |vs| :: vs[k] == f(FirstSeen(results)[k])
  {
    assert results[..|results|] == results;
  }

  /** Every id of the input is kept, and nothing else. */
  lemma {:induction false} FirstSeenIds(hits: seq<Hit>)
    ensures forall id :: id in Ids(FirstSeen(hits)) <==> id in Ids(hits)
    ensures forall h | h in FirstSeen(hits) :: h in hits
  {
    if hits != [] {
      var n := |hits|;
      var p := hits[..n - 1];
      FirstSeenIds(p);
      assert hits == p + [hits[n - 1]];
      IdsAppend(p, hits[n - 1]);
      IdsAppend(FirstSeen(p), hits[n - 1]);
    }
  }

  /** No id is kept twice. */
  lemma {:induction false} FirstSeenDistinct(hits: seq<Hit>)
    ensures DistinctIds(FirstSeen(hits))
  {
    if hits != [] {
      var p := hits[..|hits| - 1];
      FirstSeenDistinct(p);
      var f := FirstSeen(p);
      var h := hits[|hits| - 1];
      if IdOf(h) !in Ids(f) {
        forall i | 0 <= i < |f| ensures IdOf(f[i]) != IdOf(h) {
          assert Ids(f)[i] == IdOf(f[i]);
        }
      }
    }
  }

  /**
   * Each kept hit is the first hit with its id, and the kept hits come in
   * the order in which their ids first appear.
   */
  lemma {:induction false} FirstSeenIsFirstOccurrence(hits: seq<Hit>)
    ensures forall i | 0 <= i < |FirstSeen(hits)| ::
      IdOf(FirstSeen(hits)[i]) in Ids(hits) &&
      FirstSeen(hits)[i] == hits[FirstIndex(Ids(hits), IdOf(FirstSeen(hits)[i]))]
    ensures forall i, j | 0 <= i < j < |FirstSeen(hits)| ::
      FirstIndex(Ids(hits), IdOf(FirstSeen(hits)[i])) < FirstIndex(Ids(hits), IdOf(FirstSeen(hits)[j]))
  {
    if hits != [] {
      var p, h := hits[..|hits| - 1], hits[|hits| - 1];
      assert hits == p + [h];
      FirstSeenIsFirstOccurrence(p);
      KeptFirstSnoc(p, h);
      KeptInOrderSnoc(p, h);
    }
  }

  /** Each hit of `kept` is the first hit of `hits` with its id. */
  ghost predicate KeptFirst(hits: seq<Hit>, kept: seq<Hit>) {
    forall i | 0 <= i < |kept| ::
      IdOf(kept[i]) in Ids(hits) && kept[i] == hits[FirstIndex(Ids(hits), IdOf(kept[i]))]
  }

  /** The ids of `kept` first appear in `hits` in the order of `kept`. */
  ghost predicate KeptInOrder(hits: seq<Hit>, kept: seq<Hit>) {
    forall i, j | 0 <= i < j < |kept| ::
      IdOf(kept[i]) in Ids(hits) && IdOf(kept[j]) in Ids(hits) &&
      FirstIndex(Ids(hits), IdOf(kept[i])) < FirstIndex(Ids(hits), IdOf(kept[j]))
  }

  /** An id already present keeps its first position when an element is appended. */
  lemma FirstIndexSnoc(ids: seq<RecordId>, x: RecordId, id: RecordId)
    requires id in ids
    ensures FirstIndex(ids + [x], id) == FirstIndex(ids, id)
  {
    FirstIndexUnique(ids + [x], id, FirstIndex(ids, id));
  }

  /** One more hit: kept exactly when its id does not occur earlier. */
  lemma FirstSeenSnocIds(p: seq<Hit>, h: Hit)
    ensures IdOf(h) in Ids(p) ==> FirstSeen(p + [h]) == FirstSeen(p)
    ensures IdOf(h) !in Ids(p) ==> FirstSeen(p + [h]) == FirstSeen(p) + [h]
  {
    FirstSeenSnoc(p, h);
    FirstSeenIds(p);
  }

  lemma KeptFirstSnoc(p: seq<Hit>, h: Hit)
    requires KeptFirst(p, FirstSeen(p))
    ensures KeptFirst(p + [h], FirstSeen(p + [h]))
  {
    var hits, fp, f := p + [h], FirstSeen(p), FirstSeen(p + [h]);
    FirstSeenSnocIds(p, h);
    IdsAppend(p, h);
    forall i | 0 <= i < |f|
      ensures IdOf(f[i]) in Ids(hits) && f[i] == hits[FirstIndex(Ids(hits), IdOf(f[i]))]
    {
      if i < |fp| {
        assert f[i] == fp[i];
        FirstIndexSnoc(Ids(p), IdOf(h), IdOf(fp[i]));
      } else {
        assert IdOf(h) !in Ids(p) && f[i] == h;
        FirstIndexUnique(Ids(hits), IdOf(h), |p|);
      }
    }
  }

  lemma KeptInOrderSnoc(p: seq<Hit>, h: Hit)
    requires KeptFirst(p, FirstSeen(p))
    requires KeptInOrder(p, FirstSeen(p))
    ensures KeptInOrder(p + [h], FirstSeen(p + [h]))
  {
    var hits, fp, f := p + [h], FirstSeen(p), FirstSeen(p + [h]);
    FirstSeenSnocIds(p, h);
    IdsAppend(p, h);
    forall i, j | 0 <= i < j < |f|
      ensures IdOf(f[i]) in Ids(hits) && IdOf(f[j]) in Ids(hits) &&
        FirstIndex(Ids(hits), IdOf(f[i])) < FirstIndex(Ids(hits), IdOf(f[j]))
    {
      assert f[i] == fp[i];
      FirstIndexSnoc(Ids(p), IdOf(h), IdOf(fp[i]));
      if j < |fp| {
        assert f[j] == fp[j];
        FirstIndexSnoc(Ids(p), IdOf(h), IdOf(fp[j]));
      } else {
        assert IdOf(h) !in Ids(p) && f[j] == h;
        FirstIndexUnique(Ids(hits), IdOf(h), |p|);
      }
    }
  }

  /** Later hits whose ids were already seen change nothing. */
  lemma {:induction false} FirstSeenIgnoresRepeats(hits: seq<Hit>, later: seq<Hit>)
    requires forall h | h in later :: IdOf(h) in Ids(hits)
    ensures FirstSeen(hits + later) == FirstSeen(hits)
  {
    if later != [] {
      var m := |later|;
      var l := later[..m - 1];
      var x := later[m - 1];
      FirstSeenIgnoresRepeats(hits, l);
      assert hits + later == (hits + l) + [x];
      assert x in later;
      FirstSeenIds(hits);
      FirstSeenSnoc(hits + l, x);
    } else {
      assert hits + later == hits;
    }
  }

  /** How many hits carry `id` (`record_id === id`, counted in one pass). */
  function CountHits(hits: seq<Hit>, id: RecordId): (n: nat)
    ensures n <= |hits|
    ensures n > 0 <==> id in Ids(hits)
  {
    if hits == [] then 0
    else
      var p := hits[..|hits| - 1];
      assert hits == p + [hits[|hits| - 1]];
      IdsAppend(p, hits[|hits| - 1]);
      CountHits(p, id) + (if IdOf(hits[|hits| - 1]) == id then 1 else 0)
  }

  lemma CountHitsSnoc(hits: seq<Hit>, h: Hit, id: RecordId)
    ensures CountHits(hits + [h], id) == CountHits(hits, id) + (if IdOf(h) == id then 1 else 0)
  {
    assert (hits + [h])[..|hits|] == hits;
  }

  /** Sum of the hit counts of the ids of `fs`, counted in `hits`. */
  function SumHits(fs: seq<Hit>, hits: seq<Hit>): nat {
    if fs == [] then 0 else SumHits(fs[..|fs| - 1], hits) + CountHits(hits, IdOf(fs[|fs| - 1]))
  }

  lemma SumHitsSnoc(fs: seq<Hit>, g: Hit, hits: seq<Hit>)
    ensures SumHits(fs + [g], hits) == SumHits(fs, hits) + CountHits(hits, IdOf(g))
  {
    assert (fs + [g])[..|fs|] == fs;
  }

  lemma {:induction false} SumHitsAppend(fs: seq<Hit>, hits: seq<Hit>, h: Hit)
    ensures SumHits(fs, hits + [h]) == SumHits(fs, hits) + CountHits(fs, IdOf(h))
  {
    if fs != [] {
      var q := fs[..|fs| - 1];
      var g := fs[|fs| - 1];
      assert fs == q + [g];
      SumHitsAppend(q, hits, h);
      SumHitsSnoc(q, g, hits + [h]);
      SumHitsSnoc(q, g, hits);
      CountHitsSnoc(hits, h, IdOf(g));
      CountHitsSnoc(q, g, IdOf(h));
    }
  }

  lemma {:induction false} CountDistinct(fs: seq<Hit>, id: RecordId)
    requires DistinctIds(fs) && id in Ids(fs)
    ensures CountHits(fs, id) == 1
  {
    var p := fs[..|fs| - 1];
    var g := fs[|fs| - 1];
    assert fs == p + [g];
    IdsAppend(p, g);
    if IdOf(g) == id {
      forall k | 0 <= k < |p| ensures Ids(p)[k] != id {
        assert IdOf(fs[k]) != IdOf(fs[|fs| - 1]);
      }
    } else {
      CountDistinct(p, id);
    }
  }

  /** The per-id hit counts of the first-seen records add up to the number of hits. */
  lemma {:induction false} HitCountsPartition(hits: seq<Hit>)
    ensures SumHits(FirstSeen(hits), hits) == |hits|
  {
    if hits != [] {
      var n := |hits|;
      var p := hits[..n - 1];
      var h := hits[n - 1];
      var fp := FirstSeen(p);
      assert hits == p + [h];
      HitCountsPartition(p);
      FirstSeenIds(p);
      FirstSeenDistinct(p);
      FirstSeenSnoc(p, h);
      SumHitsAppend(fp, p, h);
      if IdOf(h) in Ids(fp) {
        CountDistinct(fp, IdOf(h));
      } else {
        SumHitsSnoc(fp, h, hits);
        CountHitsSnoc(p, h, IdOf(h));
        assert CountHits(fp, IdOf(h)) == 0;
        assert CountHits(p, IdOf(h)) == 0;
      }
    }
  }
}
