/**
 * The three export formatters. Each takes the raw hits of a search, keeps one
 * entry per distinct record id and renders it as text: the sorted id list,
 * one citation per record, or one labelled multi-line block per record.
 */
module ExportUtils {
  import opened JsText
  import opened Records
  import opened IdOrder

  /** The part of the search URL that starts the query string. */
  const QUERY_MARKER: string := "/query?"
  /** The segment of a document path where the viewer's table of contents begins. */
  const TOC_MARKER: string := "/table-of-contents"
  /** The last element pushed onto every short-record block. */
  const SEPARATOR: string := "\r\n---------------------------\r\n"

  /** `getSortedIds`: the distinct record ids, in the default sort order. */
  method GetSortedIds(results: seq<Hit>) returns (ids: seq<RecordId>)
    ensures ids == SortedIds(results)
    ensures StrictlySorted(ids)
    ensures forall id :: id in ids <==> id in Ids(results)
    ensures |ids| == |set id | id in Ids(results)| <= |results|
  {
    ids := DistinctSortedIds(results);
  }

  /** "Place (Year), in Edition", falling back on Source when Edition is missing or empty. */
  function Citation(md: Metadata): (c: string)
    ensures StartsWith(c, Render(md.origPlace) + " (" + Render(md.year) + "), in ")
    ensures Truthy(md.edition) ==> EndsWith(c, ", in " + md.edition.value)
    ensures !Truthy(md.edition) ==> EndsWith(c, ", in " + Render(md.source))
    // nothing lies between the leading "Place (Year), in " and the trailing part
    ensures |c| == |Render(md.origPlace) + " (" + Render(md.year) + "), in "|
      + |if Truthy(md.edition) then md.edition.value else Render(md.source)|
  {
    Render(md.origPlace) + " (" + Render(md.year) + "), in "
      + (if Truthy(md.edition) then md.edition.value else Render(md.source))
  }

  /** `[...m.values()]` for a map whose insertion order is `order`. */
  method Values(order: seq<RecordId>, m: map<RecordId, string>) returns (vs: seq<string>)
    requires forall id | id in order :: id in m
    ensures |vs| == |order|
    ensures forall k | 0 <= k < |order| :: vs[k] == m[order[k]]
  {
    vs := [];
    for k := 0 to |order|
      invariant |vs| == k
      invariant forall j | 0 <= j < k :: vs[j] == m[order[j]]
    {
      vs := vs + [m[order[k]]];
    }
  }

  /** `getCitation`: one citation per distinct record id, built from the first hit with that id. */
  method GetCitation(results: seq<Hit>) returns (citations: seq<string>)
    ensures |citations| == |FirstSeen(results)| <= |results|
    ensures forall i | 0 <= i < |citations| :: citations[i] == Citation(FirstSeen(results)[i].metadata)
  {
    var uniqueCitations: map<RecordId, string> := map[];
    var order: seq<RecordId> := [];
    ghost var cite := (h: Hit) => Citation(h.metadata);
    FilledStart(results, cite);
    for i := 0 to |results|
      invariant FilledUpTo(results, i, cite, uniqueCitations, order)
    {
      var md := results[i].metadata;
      if md.recordId !in uniqueCitations {
        var citationString := Citation(md);
        FilledStep(results, i, cite, uniqueCitations, order, citationString);
        uniqueCitations := uniqueCitations[md.recordId := citationString];
        order := order + [md.recordId];
      } else {
        FilledStep(results, i, cite, uniqueCitations, order, "");
      }
    }
    citations := Values(order, uniqueCitations);
    FilledValues(results, cite, uniqueCitations, order, citations);
  }

  /** `getNumberOfHitsForRecord`: counts the hits whose id is `recordId`. */
  method GetNumberOfHitsForRecord(results: seq<Hit>, recordId: RecordId) returns (count: nat)
    ensures count == CountHits(results, recordId)
  {
    count := 0;
    for i := 0 to |results|
      invariant count == CountHits(results[..i], recordId)
    {
      TakeSnoc(results, i);
      CountHitsSnoc(results[..i], results[i], recordId);
      if IdOf(results[i]) == recordId {
        count := count + 1;
      }
    }
    assert results[..|results|] == results;
  }

  /**
   * The shape shared by `getLinkToFullText` and `getLinkToMetadata`: the base
   * URL, "/", the document path up to "/table-of-contents" (`indexOf` gives -1
   * when the marker is absent, and `substring` clamps it to 0), "/" and the
   * viewer page.
   */
  function ViewerLink(baseURL: string, links: CitationLinks, page: char): string {
    baseURL + "/" + PrefixBefore(links.doc, TOC_MARKER) + ['/', page]
  }

  /**
   * `r` is the viewer link for `links` at `page`: it starts with the base URL
   * and "/", ends with "/" and the page, and what lies between is the
   * document path before the leftmost "/table-of-contents", or nothing when
   * the marker is absent.
   */
  predicate IsViewerLink(r: string, baseURL: string, links: CitationLinks, page: char) {
    && |r| >= |baseURL| + 3 && StartsWith(r, baseURL + "/") && EndsWith(r, ['/', page])
    && var path := r[|baseURL| + 1..|r| - 2];
    && (!Contains(links.doc, TOC_MARKER) ==> path == "")
    && (Contains(links.doc, TOC_MARKER) ==> path + TOC_MARKER <= links.doc && FirstOccurrence(links.doc, TOC_MARKER, |path|))
  }

  lemma ViewerLinkShape(baseURL: string, links: CitationLinks, page: char)
    ensures IsViewerLink(ViewerLink(baseURL, links, page), baseURL, links, page)
  {
    var path := PrefixBefore(links.doc, TOC_MARKER);
    var r := ViewerLink(baseURL, links, page);
    assert r[|baseURL| + 1..|r| - 2] == path;
  }

  /** `getLinkToFullText`: the viewer's page 2 for the document. */
  function LinkToFullText(baseURL: string, links: CitationLinks): (r: string)
    ensures IsViewerLink(r, baseURL, links, '2')
  {
    ViewerLinkShape(baseURL, links, '2');
    ViewerLink(baseURL, links, '2')
  }

  /** `getLinkToMetadata`: the viewer's page 1 (all metadata) for the document. */
  function LinkToMetadata(baseURL: string, links: CitationLinks): (r: string)
    ensures IsViewerLink(r, baseURL, links, '1')
  {
    ViewerLinkShape(baseURL, links, '1');
    ViewerLink(baseURL, links, '1')
  }

  /** The two links of a hit agree up to their last character, the page: "2" for the full text, "1" for the metadata. */
  lemma LinksDifferInPage(baseURL: string, links: CitationLinks)
    ensures var full, meta := LinkToFullText(baseURL, links), LinkToMetadata(baseURL, links);
      && |full| == |meta| > 0
      && full[..|full| - 1] == meta[..|meta| - 1]
      && full[|full| - 1] == '2' && meta[|meta| - 1] == '1'
  {
    var front := baseURL + "/" + PrefixBefore(links.doc, TOC_MARKER);
    LastCharDiffers(front + ['/', '2'], front + ['/', '1'], front + "/");
  }

  lemma LastCharDiffers(x: string, y: string, front: string)
    requires x == front + "2" && y == front + "1"
    ensures |x| == |y| > 0 && x[..|x| - 1] == y[..|y| - 1] && x[|x| - 1] == '2' && y[|y| - 1] == '1'
  {
    assert x[..|x| - 1] == front;
    assert y[..|y| - 1] == front;
  }

  /** The line for one optional field, present only when the field is truthy. */
  function FieldLine(prefix: string, v: Option<string>): seq<string> {
    if Truthy(v) then [prefix + v.value] else []
  }

  /** The optional fields of a short record, with their labels, in the order they are printed. */
  function FieldTable(md: Metadata): seq<(string, Option<string>)>
  {
    seq(10, k requires 0 <= k < 10 => FieldAt(md, k))
  }

  /** Entry `k` of the field table. */
  function FieldAt(md: Metadata, k: nat): (string, Option<string>)
    requires k < 10
  {
    if k == 0 then ("Year: ", md.year)
    else if k == 1 then ("Place: ", md.origPlace)
    else if k == 2 then ("Province: ", md.province)
    else if k == 3 then ("Diocese: ", md.diocese)
    else if k == 4 then ("Modern country: ", md.country)
    else if k == 5 then ("Classification: ", md.classification)
    else if k == 6 then ("Issuing authority: ", md.issuingAuthority)
    else if k == 7 then ("Language: ", md.language)
    else if k == 8 then ("Edition: ", md.edition)
    else ("Source: ", md.source)
  }

  function FieldLines(table: seq<(string, Option<string>)>): seq<string> {
    if table == [] then []
    else FieldLines(table[..|table| - 1]) + FieldLine(table[|table| - 1].0, table[|table| - 1].1)
  }

  lemma FieldLinesStep(table: seq<(string, Option<string>)>, k: nat)
    requires k < |table|
    ensures FieldLines(table[..k + 1]) == FieldLines(table[..k]) + FieldLine(table[k].0, table[k].1)
  {
    assert table[..k + 1][..k] == table[..k];
  }

  lemma FieldLinesCount(table: seq<(string, Option<string>)>)
    ensures |FieldLines(table)| == PresentCount(table)
  {
    FieldLinesExactly(table);
  }

  /** How many fields of the table are present. */
  function PresentCount(table: seq<(string, Option<string>)>): nat {
    if table == [] then 0
    else PresentCount(table[..|table| - 1]) + (if Truthy(table[|table| - 1].1) then 1 else 0)
  }

  /**
   * The field lines are exactly one line per present field, in table order:
   * present field j is on the line numbered by how many fields before it are
   * present, and there are as many lines as present fields, so an absent
   * field has none.
   */
  lemma {:induction false} FieldLinesExactly(table: seq<(string, Option<string>)>)
    ensures |FieldLines(table)| == PresentCount(table)
    ensures forall j | 0 <= j < |table| && Truthy(table[j].1) ::
      PresentCount(table[..j]) < |FieldLines(table)| &&
      FieldLines(table)[PresentCount(table[..j])] == table[j].0 + table[j].1.value
  {
    if table != [] {
      var n := |table|;
      var p := table[..n - 1];
      FieldLinesExactly(p);
      forall j | 0 <= j < n && Truthy(table[j].1)
        ensures PresentCount(table[..j]) < |FieldLines(table)|
        ensures FieldLines(table)[PresentCount(table[..j])] == table[j].0 + table[j].1.value
      {
        if j < n - 1 {
          assert table[..j] == p[..j];
          assert p[j] == table[j];
        } else {
          assert table[..j] == p;
        }
      }
    }
  }

  /** The "Record ID" and "Number of hits" lines, present only for a truthy id. */
  function HeadLines(id: RecordId, numHits: nat): seq<string> {
    if Truthy(id) then ["Record ID: " + id.value, "Number of hits: " + NatToString(numHits)] else []
  }

  /** The two viewer links, present only when the hit has citation links. */
  function LinkLines(links: Option<CitationLinks>, baseURL: string): seq<string> {
    match links
    case None => []
    case Some(l) =>
      [ "CoSyn URL (full text): " + LinkToFullText(baseURL, l),
        "CoSyn URL (all metadata): " + LinkToMetadata(baseURL, l) ]
  }

  /** The lines of one short-record block, before they are joined. */
  function BlockLines(hit: Hit, numHits: nat, baseURL: string): seq<string> {
    HeadLines(IdOf(hit), numHits) + FieldLines(FieldTable(hit.metadata))
      + LinkLines(hit.citationLinks, baseURL) + [SEPARATOR]
  }

  /** One short-record block: its lines joined by CRLF. */
  function ShortRecord(hit: Hit, results: seq<Hit>, baseURL: string): string {
    Join(BlockLines(hit, CountHits(results, IdOf(hit)), baseURL), CRLF)
  }

  /**
   * Every block ends with the dashed separator, and a block whose record id
   * is truthy opens with the id line and the hit-count line.
   */
  lemma ShortRecordFrame(hit: Hit, results: seq<Hit>, baseURL: string)
    ensures EndsWith(ShortRecord(hit, results, baseURL), SEPARATOR)
    ensures Truthy(IdOf(hit)) ==> StartsWith(ShortRecord(hit, results, baseURL),
      ("Record ID: " + IdOf(hit).value) + CRLF
      + ("Number of hits: " + NatToString(CountHits(results, IdOf(hit)))) + CRLF)
  {
    var numHits := CountHits(results, IdOf(hit));
    var lines := BlockLines(hit, numHits, baseURL);
    BlockLinesExactly(hit, numHits, baseURL);
    if Truthy(IdOf(hit)) {
      JoinLeadingPair(lines[0], lines[1], lines[2..], CRLF);
      assert [lines[0], lines[1]] + lines[2..] == lines;
    }
  }

  /**
   * The layout of a block: the two head lines exactly when the id is truthy,
   * then the field lines (one per present field, in table order, as
   * `FieldLinesExactly` states), then the two links exactly when the hit has
   * citation links, then the separator.
   */
  lemma BlockLinesExactly(hit: Hit, numHits: nat, baseURL: string)
    ensures var lines := BlockLines(hit, numHits, baseURL);
      var t := FieldTable(hit.metadata);
      var h := if Truthy(IdOf(hit)) then 2 else 0;
      var f := PresentCount(t);
      var l := if hit.citationLinks.Some? then 2 else 0;
      && |lines| == h + f + l + 1
      && (Truthy(IdOf(hit)) ==>
            lines[0] == "Record ID: " + IdOf(hit).value
            && lines[1] == "Number of hits: " + NatToString(numHits))
      && lines[h..h + f] == FieldLines(t)
      && (hit.citationLinks.Some? ==>
            lines[h + f] == "CoSyn URL (full text): " + LinkToFullText(baseURL, hit.citationLinks.value)
            && lines[h + f + 1] == "CoSyn URL (all metadata): " + LinkToMetadata(baseURL, hit.citationLinks.value))
      && lines[|lines| - 1] == SEPARATOR
  {
    var t := FieldTable(hit.metadata);
    var head := HeadLines(IdOf(hit), numHits);
    var links := LinkLines(hit.citationLinks, baseURL);
    var lines := BlockLines(hit, numHits, baseURL);
    FieldLinesCount(t);
    SectionsExactly(head, FieldLines(t), links, lines);
  }

  /** Where the head lines, the field lines, the links and the separator land in a block. */
  lemma SectionsExactly(head: seq<string>, fields: seq<string>, links: seq<string>, lines: seq<string>)
    requires lines == head + fields + links + [SEPARATOR]
    ensures |lines| == |head| + |fields| + |links| + 1
    ensures forall i | 0 <= i < |head| :: lines[i] == head[i]
    ensures lines[|head|..|head| + |fields|] == fields
    ensures forall i | 0 <= i < |links| :: lines[|head| + |fields| + i] == links[i]
    ensures lines[|lines| - 1] == SEPARATOR
  {
    var a := head + fields;
    var b := a + links;
    assert lines == b + [SEPARATOR];
    forall i | 0 <= i < |head| ensures lines[i] == head[i] {
      assert lines[i] == b[i] == a[i];
    }
    assert lines[|head|..|head| + |fields|] == a[|head|..] == fields;
    forall i | 0 <= i < |links| ensures lines[|head| + |fields| + i] == links[i] {
      assert lines[|a| + i] == b[|a| + i];
    }
  }

  /** `lines.join('\r\n')` for the first hit of a record. */
  method BuildBlock(results: seq<Hit>, hit: Hit, baseURL: string) returns (block: string)
    ensures block == ShortRecord(hit, results, baseURL)
  {
    var lines := BuildBlockLines(results, hit, baseURL);
    block := Join(lines, CRLF);
  }

  /** The lines `getShortRecords` pushes for the first hit of a record. */
  method BuildBlockLines(results: seq<Hit>, hit: Hit, baseURL: string) returns (lines: seq<string>)
    ensures lines == BlockLines(hit, CountHits(results, IdOf(hit)), baseURL)
  {
    var md := hit.metadata;
    lines := [];
    if Truthy(md.recordId) {
      lines := lines + ["Record ID: " + md.recordId.value];
      var numHits := GetNumberOfHitsForRecord(results, md.recordId);
      lines := lines + ["Number of hits: " + NatToString(numHits)];
    }
    assert lines == HeadLines(IdOf(hit), CountHits(results, IdOf(hit)));
    lines := PushFieldLines(md, lines);
    lines := PushLinkLines(lines, hit.citationLinks, baseURL);
    lines := lines + [SEPARATOR];
  }

  /** The two `if (result.citation_links) lines.push(...)` statements. */
  method PushLinkLines(lines: seq<string>, links: Option<CitationLinks>, baseURL: string) returns (out: seq<string>)
    ensures out == lines + LinkLines(links, baseURL)
  {
    out := lines;
    if links.Some? {
      var fullTextLink := LinkToFullText(baseURL, links.value);
      out := out + ["CoSyn URL (full text): " + fullTextLink];
    }
    if links.Some? {
      var metadataLink := LinkToMetadata(baseURL, links.value);
      out := out + ["CoSyn URL (all metadata): " + metadataLink];
    }
  }

  /**
   * `if (v) lines.push(`${prefix}${v}`)` for entry `k` of the field table:
   * the lines of the fields before it grow by the line of this one, if present.
   */
  method PushField(md: Metadata, head: seq<string>, k: nat, prefix: string, v: Option<string>, lines: seq<string>)
    returns (out: seq<string>)
    requires k < 10 && FieldAt(md, k) == (prefix, v)
    requires lines == head + FieldLines(FieldTable(md)[..k])
    ensures out == head + FieldLines(FieldTable(md)[..k + 1])
    ensures Truthy(v) ==> out == lines + [prefix + v.value]
    ensures !Truthy(v) ==> out == lines
  {
    out := lines;
    if Truthy(v) {
      out := out + [prefix + v.value];
    }
    FieldLinesStep(FieldTable(md), k);
  }

  /** The ten `if (field) lines.push(...)` statements, in source order. */
  method PushFieldLines(md: Metadata, head: seq<string>) returns (lines: seq<string>)
    ensures lines == head + FieldLines(FieldTable(md))
  {
    lines := head;
    assert FieldTable(md)[..0] == [];
    lines := PushField(md, head, 0, "Year: ", md.year, lines);
    lines := PushField(md, head, 1, "Place: ", md.origPlace, lines);
    lines := PushField(md, head, 2, "Province: ", md.province, lines);
    lines := PushField(md, head, 3, "Diocese: ", md.diocese, lines);
    lines := PushField(md, head, 4, "Modern country: ", md.country, lines);
    lines := PushField(md, head, 5, "Classification: ", md.classification, lines);
    lines := PushField(md, head, 6, "Issuing authority: ", md.issuingAuthority, lines);
    lines := PushField(md, head, 7, "Language: ", md.language, lines);
    lines := PushField(md, head, 8, "Edition: ", md.edition, lines);
    lines := PushField(md, head, 9, "Source: ", md.source, lines);
    assert FieldTable(md)[..10] == FieldTable(md);
  }

  /**
   * `getShortRecords`: one block per distinct record id, built from the
   * first hit with that id, with links relative to the part of `url` before
   * "/query?".
   */
  method GetShortRecords(results: seq<Hit>, url: string) returns (blocks: seq<string>)
    ensures |blocks| == |FirstSeen(results)| <= |results|
    ensures forall i | 0 <= i < |blocks| ::
      blocks[i] == ShortRecord(FirstSeen(results)[i], results, PrefixBefore(url, QUERY_MARKER))
  {
    var baseURL := PrefixBefore(url, QUERY_MARKER);
    blocks := CollectBlocks(results, baseURL);
  }

  /** The `results.forEach` of `getShortRecords` and the `[...uniqueCitations.values()]` after it. */
  method CollectBlocks(results: seq<Hit>, baseURL: string) returns (blocks: seq<string>)
    ensures |blocks| == |FirstSeen(results)| <= |results|
    ensures forall i | 0 <= i < |blocks| :: blocks[i] == ShortRecord(FirstSeen(results)[i], results, baseURL)
  {
    var uniqueCitations: map<RecordId, string> := map[];
    var order: seq<RecordId> := [];
    ghost var render := (h: Hit) => ShortRecord(h, results, baseURL);
    FilledStart(results, render);
    for i := 0 to |results|
      invariant FilledUpTo(results, i, render, uniqueCitations, order)
    {
      var id := IdOf(results[i]);
      if id !in uniqueCitations {
        var citationString := BuildBlock(results, results[i], baseURL);
        FilledStep(results, i, render, uniqueCitations, order, citationString);
        uniqueCitations := uniqueCitations[id := citationString];
        order := order + [id];
      } else {
        FilledStep(results, i, render, uniqueCitations, order, "");
      }
    }
    blocks := Values(order, uniqueCitations);
    FilledValues(results, render, uniqueCitations, order, blocks);
  }
}
