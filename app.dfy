/**
 * The report side of the exporter's main component: the probe URL sent
 * first, the distinct sorted record ids (`processData`), the downloaded
 * file's name and text (`saveTextFile`), and the `loading` flag that
 * `handleInputURL` raises while a request is in flight.
 */
module App {
  import opened JsText
  import opened Records
  import opened IdOrder

  const END_ZERO: string := "end=0"
  const END_ONE: string := "end=1"
  const JSON_SUFFIX: string := "&format=json"

  /**
   * The `query` object of the probe response, as far as the report reads
   * it: the search string, the report type, and `end`, which the component
   * overwrites with the total number of hits.
   */
  datatype Query = Query(q: Option<string>, report: Option<string>, end: nat)

  /** The probe response: its `query` object (possibly missing) and `results_length`. */
  datatype ProbeResponse = ProbeResponse(query: Option<Query>, resultsLength: nat)

  /** The full response: its `results` array. */
  datatype FullResponse = FullResponse(results: seq<Hit>)

  /** What a submission ends in: a saved file, or the "Invalid URL" alert. */
  datatype Outcome = Saved(fileName: string, blobData: string) | Alerted(message: string)

  /**
   * The probe URL: the first "end=0" becomes "end=1" (so the probe asks
   * for one hit only), then "&format=json" is appended.
   */
  function ProbeURL(url: string): (r: string)
    ensures EndsWith(r, JSON_SUFFIX)
    ensures |r| == |url| + |JSON_SUFFIX|
    ensures !Contains(url, END_ZERO) ==> r == url + JSON_SUFFIX
    ensures forall i | FirstOccurrence(url, END_ZERO, i) ::
      r == url[..i] + END_ONE + url[i + |END_ZERO|..] + JSON_SUFFIX
  {
    var replaced := ReplaceFirst(url, END_ZERO, END_ONE);
    var r := replaced + JSON_SUFFIX;
    assert r[|r| - |JSON_SUFFIX|..] == JSON_SUFFIX;
    r
  }

  /**
   * The rewrite touches exactly one character: the "0" of the leftmost
   * "end=0" becomes "1"; everything else of the URL is kept.
   */
  lemma ProbeURLChangesOneDigit(url: string, i: nat)
    requires FirstOccurrence(url, END_ZERO, i)
    ensures ProbeURL(url)[..|url|] == url[i + 4 := '1']
    ensures ProbeURL(url)[|url|..] == JSON_SUFFIX
  {
    var r := ProbeURL(url);
    assert r == url[..i] + END_ONE + url[i + 5..] + JSON_SUFFIX;
    assert url[i..i + 5] == END_ZERO;
    forall k | 0 <= k < |url| ensures r[k] == url[i + 4 := '1'][k] {
      if k < i {
      } else if k < i + 5 {
        assert r[k] == END_ONE[k - i];
        assert url[k] == END_ZERO[k - i];
      } else {
        assert r[k] == url[i + 5..][k - i - 5];
      }
    }
  }

  /** The query the full fetch is made with: the probe's query, with `end` set to the total hit count. */
  function FullFetchQuery(query: Query, resultsLength: nat): (r: Query)
    ensures r.q == query.q && r.report == query.report && r.end == resultsLength
  {
    query.(end := resultsLength)
  }

  /** `processData`: the distinct record ids of the results, sorted. */
  method ProcessData(data: FullResponse) returns (ids: seq<RecordId>)
    ensures ids == SortedIds(data.results)
    ensures StrictlySorted(ids)
    ensures forall id :: id in ids <==> id in Ids(data.results)
    ensures |ids| == |set id | id in Ids(data.results)| <= |data.results|
  {
    ids := DistinctSortedIds(data.results);
  }

  /** `new Date().toISOString().substring(0, 10)`, with the ISO date text given. */
  function DateString(isoDate: string): (r: string)
    ensures r <= isoDate
    ensures |r| == if |isoDate| < 10 then |isoDate| else 10
  {
    Substring(isoDate, 0, 10)
  }

  /** `${dateString}-${query.report}-${query.q}.txt`. */
  function FileName(isoDate: string, query: Query): (r: string)
    ensures var d := DateString(isoDate);
      var rep := Render(query.report);
      var q := Render(query.q);
      && |r| == |d| + |rep| + |q| + 6
      && r[..|d|] == d
      && r[|d|] == '-'
      && r[|d| + 1..|d| + 1 + |rep|] == rep
      && r[|d| + 1 + |rep|] == '-'
      && r[|d| + 2 + |rep|..|r| - 4] == q
      && EndsWith(r, ".txt")
  {
    var d := DateString(isoDate);
    var rep := Render(query.report);
    var q := Render(query.q);
    var r := d + "-" + rep + "-" + q + ".txt";
    assert r[|r| - 4..] == ".txt";
    r
  }

  /** `${id}` for one element of `ids.join(...)`: a missing id joins as the empty string. */
  function IdText(id: RecordId): string {
    match id
    case Some(s) => s
    case None => ""
  }

  /** The join text of each id, position by position. */
  function IdTexts(ids: seq<RecordId>): seq<string>
  {
    seq(|ids|, k requires 0 <= k < |ids| => IdText(ids[k]))
  }

  /** The text of the downloaded file, piece by piece as the component concatenates it. */
  function BlobConcat(url: string, query: Query, ids: seq<RecordId>): string {
    (url + CRLF + CRLF)
    + ("Query String: " + Render(query.q) + CRLF)
    + ("Report Type: " + Render(query.report) + CRLF)
    + ("Total Hits: " + NatToString(query.end) + CRLF)
    + ("Number of Unique Record IDs: " + NatToString(|ids|) + CRLF + CRLF)
    + Join(IdTexts(ids), CRLF)
  }

  /**
   * `blobData`: a list of lines separated by CRLF, with no CRLF after the
   * last one: the header lines, then one line per record id.
   */
  function BlobData(url: string, query: Query, ids: seq<RecordId>): (r: string)
    ensures r == Join(HeaderLines(url, query, |ids|) + BodyLines(ids), CRLF)
  {
    BlobLines(url, query, ids);
    BlobConcat(url, query, ids)
  }

  /** The lines before the ids: the URL, a blank line, four labelled lines, a blank line. */
  function HeaderLines(url: string, query: Query, n: nat): seq<string>
  {
    [ url, "",
      "Query String: " + Render(query.q),
      "Report Type: " + Render(query.report),
      "Total Hits: " + NatToString(query.end),
      "Number of Unique Record IDs: " + NatToString(n),
      "" ]
  }

  /** The lines after the header: one per id, or a single empty line when there is none. */
  function BodyLines(ids: seq<RecordId>): seq<string>
  {
    if ids == [] then [""] else IdTexts(ids)
  }

  /** The concatenated pieces of the file text regroup into its CRLF-joined lines. */
  lemma BlobLines(url: string, query: Query, ids: seq<RecordId>)
    ensures BlobConcat(url, query, ids) == Join(HeaderLines(url, query, |ids|) + BodyLines(ids), CRLF)
  {
    var header := HeaderLines(url, query, |ids|);
    var body := BodyLines(ids);
    HeaderJoin(header);
    JoinConcat(header, body, CRLF);
    if ids == [] {
      assert Join(body, CRLF) == Join(IdTexts(ids), CRLF);
    }
    BlobPieces(url, "Query String: " + Render(query.q), "Report Type: " + Render(query.report),
      "Total Hits: " + NatToString(query.end), "Number of Unique Record IDs: " + NatToString(|ids|),
      Join(IdTexts(ids), CRLF));
  }

  /** Seven header lines, ending with an empty one, joined by CRLF. */
  lemma HeaderJoin(h: seq<string>)
    requires |h| == 7 && h[1] == "" && h[6] == ""
    ensures Join(h, CRLF) == h[0] + CRLF + (CRLF + (h[2] + CRLF + (h[3] + CRLF + (h[4] + CRLF + (h[5] + CRLF)))))
  {
    JoinFrom(h, 0, CRLF);
    JoinFrom(h, 1, CRLF);
    JoinFrom(h, 2, CRLF);
    JoinFrom(h, 3, CRLF);
    JoinFrom(h, 4, CRLF);
    JoinFrom(h, 5, CRLF);
    assert h[0..] == h;
    HeaderRegroup(h[0], h[2], h[3], h[4], h[5],
      Join(h[0..], CRLF), Join(h[1..], CRLF), Join(h[2..], CRLF), Join(h[3..], CRLF),
      Join(h[4..], CRLF), Join(h[5..], CRLF), Join(h[6..], CRLF));
  }

  lemma HeaderRegroup(h0: string, h2: string, h3: string, h4: string, h5: string,
                      j0: string, j1: string, j2: string, j3: string, j4: string, j5: string, j6: string)
    requires j0 == h0 + CRLF + j1 && j1 == "" + CRLF + j2 && j2 == h2 + CRLF + j3
    requires j3 == h3 + CRLF + j4 && j4 == h4 + CRLF + j5 && j5 == h5 + CRLF + j6 && j6 == ""
    ensures j0 == h0 + CRLF + (CRLF + (h2 + CRLF + (h3 + CRLF + (h4 + CRLF + (h5 + CRLF)))))
  {
    assert "" + CRLF == CRLF;
    assert h5 + CRLF + "" == h5 + CRLF;
  }

  lemma JoinFrom(parts: seq<string>, k: nat, sep: string)
    requires k + 1 < |parts|
    ensures Join(parts[k..], sep) == parts[k] + sep + Join(parts[k + 1..], sep)
  {
    assert parts[k..] == [parts[k]] + parts[k + 1..];
    JoinCons(parts[k], parts[k + 1..], sep);
  }

  /** Regrouping the concatenation of the header pieces and the id text. */
  lemma BlobPieces(url: string, qs: string, rt: string, th: string, nu: string, body: string)
    ensures (url + CRLF + CRLF) + (qs + CRLF) + (rt + CRLF) + (th + CRLF) + (nu + CRLF + CRLF) + body
      == url + CRLF + (CRLF + (qs + CRLF + (rt + CRLF + (th + CRLF + (nu + CRLF))))) + CRLF + body
  {
  }

  /**
   * The outcome of one submission, with the two responses given: the
   * "Invalid URL" alert when the probe fails or carries no query object, or
   * when the full fetch fails (its error is swallowed and the missing data
   * makes `processData` throw); otherwise the saved file.
   */
  function SubmissionOutcome(url: string, probe: Option<ProbeResponse>, full: Option<FullResponse>, isoDate: string): (r: Outcome)
    ensures r.Alerted? <==> probe.None? || probe.value.query.None? || full.None?
    ensures r.Alerted? ==> r.message == "Invalid URL"
  {
    if probe.None? || probe.value.query.None? || full.None? then Alerted("Invalid URL")
    else
      var query := FullFetchQuery(probe.value.query.value, probe.value.resultsLength);
      Saved(FileName(isoDate, query), BlobData(url, query, SortedIds(full.value.results)))
  }

  /**
   * A saved report states the probe's hit total and the number of distinct
   * record ids, lists every distinct id once in ascending order, and is
   * named after the date, the report type and the search string.
   */
  lemma SavedReport(url: string, probe: Option<ProbeResponse>, full: Option<FullResponse>, isoDate: string)
    requires SubmissionOutcome(url, probe, full, isoDate).Saved?
    ensures probe.Some? && probe.value.query.Some? && full.Some?
    ensures var query := probe.value.query.value.(end := probe.value.resultsLength);
      var ids := SortedIds(full.value.results);
      var out := SubmissionOutcome(url, probe, full, isoDate);
      && out.fileName == FileName(isoDate, query)
      && out.blobData == Join(HeaderLines(url, query, |ids|) + BodyLines(ids), CRLF)
      && StrictlySorted(ids)
      && (forall id :: id in ids <==> id in Ids(full.value.results))
      && |ids| == |set id | id in Ids(full.value.results)| <= |full.value.results|
  {
    var query := probe.value.query.value.(end := probe.value.resultsLength);
    var ids := SortedIds(full.value.results);
    SortedIdsSpec(full.value.results);
  }

  /** The component's state as far as the export is concerned. */
  class App {
    var loading: bool

    constructor ()
      ensures !loading
    {
      loading := false;
    }

    /** `handleInputURL` up to the probe request: the probe URL is built and `loading` raised. */
    method Submit(url: string) returns (probeUrl: string)
      modifies this
      ensures loading
      ensures probeUrl == ProbeURL(url)
    {
      probeUrl := ReplaceFirst(url, END_ZERO, END_ONE) + JSON_SUFFIX;
      loading := true;
    }

    /**
     * The rest of `handleInputURL`, once both requests have answered:
     * `processData` and `saveTextFile` on success, the alert otherwise;
     * `loading` is lowered on both paths.
     */
    method Settle(url: string, probe: Option<ProbeResponse>, full: Option<FullResponse>, isoDate: string)
      returns (outcome: Outcome)
      modifies this
      ensures !loading
      ensures outcome == SubmissionOutcome(url, probe, full, isoDate)
    {
      if probe.None? || probe.value.query.None? {
        loading := false;
        outcome := Alerted("Invalid URL");
        return;
      }
      var query := probe.value.query.value;
      query := query.(end := probe.value.resultsLength);
      if full.None? {
        loading := false;
        outcome := Alerted("Invalid URL");
        return;
      }
      var ids := ProcessData(full.value);
      var fileName := FileName(isoDate, query);
      var blobData := BlobData(url, query, ids);
      outcome := Saved(fileName, blobData);
      loading := false;
    }
  }
}
