/**
 * The row loop of `main` (main.py): resolve each input row's cluster name
 * and URL, skip rows where either is missing, scrape the rest in order and
 * collect one record per scraped row. Reading the input CSV and writing the
 * output CSV are outside the model; the rows are given, and the records are
 * what would be written.
 */
module Pipeline {
  import opened Wrappers
  import opened Scraper

  /** One row of `csv.DictReader`: header name to cell, None for a cell
      missing from a short row. */
  type Row = map<string, Option<string>>

  /** One dictionary of `cluster_data`. */
  datatype ClusterRecord = ClusterRecord(
    clusterName: string,
    description: string,
    videoUrl: string,
    transcript: string)

  /** How the loop ends: with every record collected, or with the `KeyError`
      that the scrape of row `at` raised, which nothing in `main` catches. */
  datatype RunOutcome =
    | Completed(records: seq<ClusterRecord>)
    | Aborted(at: nat)

  /** Python's `row.get(key, default)`: the cell when the key is in the
      row, otherwise the default. */
  function Get(row: Row, key: string, default: Option<string>): (r: Option<string>)
    ensures key in row ==> r == row[key]
    ensures key !in row ==> r == default
  {
    if key in row then row[key] else default
  }

  /** The cluster name: the "Cluster" cell when that key is present,
      otherwise the "Cluster Name" cell, otherwise None. */
  function ClusterName(row: Row): (r: Option<string>)
    ensures r.Some? ==> ("Cluster" in row && row["Cluster"] == r)
                        || ("Cluster" !in row && "Cluster Name" in row && row["Cluster Name"] == r)
  {
    Get(row, "Cluster", Get(row, "Cluster Name", None))
  }

  /** The cluster URL: the "URL" cell when that key is present, otherwise
      the "Cluster URL" cell, otherwise None. */
  function ClusterUrl(row: Row): (r: Option<string>)
    ensures r.Some? ==> ("URL" in row && row["URL"] == r)
                        || ("URL" !in row && "Cluster URL" in row && row["Cluster URL"] == r)
  {
    Get(row, "URL", Get(row, "Cluster URL", None))
  }

  /** Truth value of a cell in Python: None and "" are false, every other
      string is true. */
  predicate Truthy(v: Option<string>)
    ensures Truthy(v) <==> v != None && v != Some("")
  {
    v.Some? && v.value != ""
  }

  /** A row is scraped only when both its resolved name and its resolved
      URL are present and non-empty; otherwise the loop moves on. */
  predicate Selected(row: Row)
    ensures Selected(row) ==> ClusterName(row).Some? && ClusterName(row).value != ""
    ensures Selected(row) ==> ClusterUrl(row).Some? && ClusterUrl(row).value != ""
  {
    Truthy(ClusterName(row)) && Truthy(ClusterUrl(row))
  }

  /** The name is the "Cluster" cell whenever that column is there, even
      when the cell is empty or missing; "Cluster Name" is read only when
      there is no "Cluster" column. */
  lemma ClusterNameResolution(row: Row)
    ensures "Cluster" in row ==> ClusterName(row) == row["Cluster"]
    ensures "Cluster" !in row && "Cluster Name" in row ==> ClusterName(row) == row["Cluster Name"]
    ensures "Cluster" !in row && "Cluster Name" !in row ==> ClusterName(row) == None
  {
  }

  /** The same rule for "URL" and "Cluster URL". */
  lemma ClusterUrlResolution(row: Row)
    ensures "URL" in row ==> ClusterUrl(row) == row["URL"]
    ensures "URL" !in row && "Cluster URL" in row ==> ClusterUrl(row) == row["Cluster URL"]
    ensures "URL" !in row && "Cluster URL" !in row ==> ClusterUrl(row) == None
  {
  }

  /** An empty or missing "Cluster" cell skips the row, whatever its
      "Cluster Name" cell holds. */
  lemma EmptyClusterCellIsSkipped(row: Row)
    requires "Cluster" in row && (row["Cluster"] == None || row["Cluster"] == Some(""))
    ensures !Selected(row)
  {
  }

  /** The rows that get past the check, in input order. */
  function Kept(rows: seq<Row>): (r: seq<Row>)
    ensures |r| <= |rows|
    ensures forall k :: 0 <= k < |r| ==> Selected(r[k])
  {
    if rows == [] then []
    else
      var last := rows[|rows| - 1];
      Kept(rows[..|rows| - 1]) + if Selected(last) then [last] else []
  }

  /** The rows that are skipped, in input order. */
  function Skipped(rows: seq<Row>): (r: seq<Row>)
    ensures forall k :: 0 <= k < |r| ==> !Selected(r[k])
  {
    if rows == [] then []
    else
      var last := rows[|rows| - 1];
      Skipped(rows[..|rows| - 1]) + if Selected(last) then [] else [last]
  }

  /** Every row is either kept or skipped. */
  lemma {:induction false} KeptPlusSkipped(rows: seq<Row>)
    ensures |Kept(rows)| + |Skipped(rows)| == |rows|
  {
    if rows != [] {
      KeptPlusSkipped(rows[..|rows| - 1]);
    }
  }

  /** The indices of the rows that get past the check, ascending. */
  function SelectedIndices(rows: seq<Row>): seq<nat> {
    if rows == [] then []
    else
      SelectedIndices(rows[..|rows| - 1])
      + if Selected(rows[|rows| - 1]) then [|rows| - 1] else []
  }

  /** Kept is exactly the input restricted to the selected rows, with their
      order kept: its k-th element is the row at the k-th selected index,
      the indices increase, and an index is among them if and only if the
      row there is selected. */
  lemma {:induction false} KeptIsOrderedSelection(rows: seq<Row>)
    ensures |SelectedIndices(rows)| == |Kept(rows)|
    ensures forall k :: 0 <= k < |Kept(rows)| ==>
      SelectedIndices(rows)[k] < |rows| && Kept(rows)[k] == rows[SelectedIndices(rows)[k]]
    ensures forall k, l :: 0 <= k < l < |Kept(rows)| ==> SelectedIndices(rows)[k] < SelectedIndices(rows)[l]
    ensures forall i :: 0 <= i < |rows| ==> (i in SelectedIndices(rows) <==> Selected(rows[i]))
  {
    if rows != [] {
      var init := rows[..|rows| - 1];
      KeptIsOrderedSelection(init);
      assert forall i :: 0 <= i < |init| ==> init[i] == rows[i];
    }
  }

  /** The scrape of a kept row raises the `KeyError`. */
  predicate Crashes(row: Row, web: string -> FetchOutcome, nfkd: string -> string) {
    Selected(row) && ScrapeClusterData(web(ClusterUrl(row).value), nfkd).SrcKeyError?
  }

  /** `record` is what the loop appends for `row`: its resolved name and the
      three values that scraping its resolved URL returns. */
  predicate IsRecordFor(record: ClusterRecord, row: Row, web: string -> FetchOutcome, nfkd: string -> string) {
    && Selected(row)
    && record.clusterName == ClusterName(row).value
    && ScrapeClusterData(web(ClusterUrl(row).value), nfkd)
       == Scraped(record.description, record.videoUrl, record.transcript)
  }

  /** A kept row whose fetch fails still gets its record, with all three
      scraped fields "N/A". */
  lemma FailedFetchRecord(record: ClusterRecord, row: Row, web: string -> FetchOutcome, nfkd: string -> string)
    requires IsRecordFor(record, row, web, nfkd) && FetchFails(web(ClusterUrl(row).value))
    ensures record.clusterName == ClusterName(row).value != ""
    ensures record.description == record.videoUrl == record.transcript == "N/A"
  {
  }

  /** The body of `main` from `cluster_data = []` to the end of the loop.
      `web` gives the outcome of fetching each URL; `nfkd` is the Unicode
      normalizer. */
  method CollectClusterData(rows: seq<Row>, web: string -> FetchOutcome, nfkd: string -> string)
    returns (outcome: RunOutcome)
    ensures outcome.Completed? <==> forall i :: 0 <= i < |rows| ==> !Crashes(rows[i], web, nfkd)
    ensures outcome.Completed? ==>
      && |outcome.records| == |Kept(rows)| == |rows| - |Skipped(rows)|
      && forall k :: 0 <= k < |Kept(rows)| ==> IsRecordFor(outcome.records[k], Kept(rows)[k], web, nfkd)
    ensures outcome.Aborted? ==>
      && outcome.at < |rows| && Crashes(rows[outcome.at], web, nfkd)
      && forall j :: 0 <= j < outcome.at ==> !Crashes(rows[j], web, nfkd)
  {
    var clusterData: seq<ClusterRecord> := [];
    for i := 0 to |rows|
      invariant |clusterData| == |Kept(rows[..i])|
      invariant forall k :: 0 <= k < |clusterData| ==> IsRecordFor(clusterData[k], Kept(rows[..i])[k], web, nfkd)
      invariant forall j :: 0 <= j < i ==> !Crashes(rows[j], web, nfkd)
    {
      assert rows[..i + 1][..i] == rows[..i];
      var row := rows[i];
      var clusterName := ClusterName(row);
      var clusterUrl := ClusterUrl(row);
      if !Truthy(clusterName) || !Truthy(clusterUrl) {
        continue;
      }
      var scraped := ScrapeClusterData(web(clusterUrl.value), nfkd);
      if scraped.SrcKeyError? {
        return Aborted(i);
      }
      clusterData := clusterData + [ClusterRecord(clusterName.value, scraped.description, scraped.videoUrl, scraped.transcript)];
    }
    assert rows[..|rows|] == rows;
    KeptPlusSkipped(rows);
    outcome := Completed(clusterData);
  }
}
