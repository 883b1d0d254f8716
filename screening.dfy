/**
 * The screening driver: each search result is turned into one content string, sent to a
 * language-model oracle, and the answer is upserted into a results file keyed by issue
 * number. Issues already in that file when the run starts are skipped.
 *
 * The results dictionary is an ordered list of records with pairwise distinct issue
 * numbers, which keeps Python's insertion order: an update keeps a key in its place and a
 * new key goes to the end.
 */
module Screening {
  import opened Wrappers
  import opened Text

  datatype ScreenComment = ScreenComment(id: int, body: string, user: string)

  datatype SearchResultItem = SearchResultItem(
    issueNumber: int,
    issueTitle: string,
    issueBody: Option<string>,
    comments: seq<ScreenComment>)

  datatype SpecificChange = SpecificChange(category: string, subcategory: string, description: string)

  datatype AnalysisResult = AnalysisResult(
    isApiRelated: bool,
    confidence: real,
    explanation: string,
    categories: seq<string>,
    specificChanges: seq<SpecificChange>)

  datatype AnalysisRecord = AnalysisRecord(issueNumber: int, issueTitle: string, analysis: AnalysisResult)

  /** The oracle: the content string in, the parsed analysis out, or `None` when the request
      or its parsing raises (which ends the run). */
  type Oracle = string -> Option<AnalysisResult>

  // ---------------------------------------------------------------------------
  // The content string
  // ---------------------------------------------------------------------------

  function Header(result: SearchResultItem): string {
    "Title: " + result.issueTitle + "\n\nBody: " + OrEmpty(result.issueBody) + "\n\nComments:\n"
  }

  function CommentLine(c: ScreenComment): string {
    c.user + ": " + c.body + "\n\n"
  }

  /** The comment lines, in comment order. */
  function CommentsText(cs: seq<ScreenComment>): string
    decreases |cs|
  {
    if |cs| == 0 then "" else CommentsText(cs[..|cs| - 1]) + CommentLine(cs[|cs| - 1])
  }

  function ContentString(result: SearchResultItem): string {
    Header(result) + CommentsText(result.comments)
  }

  /** `process_search_result`: the header, then one line per comment appended with `+=`. */
  method ProcessSearchResult(result: SearchResultItem) returns (content: string)
    ensures content == ContentString(result)
  {
    content := "Title: " + result.issueTitle + "\n\nBody: " + OrEmpty(result.issueBody) + "\n\nComments:\n";
    var i := 0;
    while i < |result.comments|
      invariant 0 <= i <= |result.comments|
      invariant content == Header(result) + CommentsText(result.comments[..i])
    {
      var comment := result.comments[i];
      assert result.comments[..i + 1][..i] == result.comments[..i];
      content := content + comment.user + ": " + comment.body + "\n\n";
      i := i + 1;
    }
    assert result.comments[..|result.comments|] == result.comments;
  }

  /** The comment text of a concatenation is the concatenation of the comment texts. */
  lemma {:induction false} CommentsTextAppend(a: seq<ScreenComment>, b: seq<ScreenComment>)
    ensures CommentsText(a + b) == CommentsText(a) + CommentsText(b)
    decreases |b|
  {
    if |b| == 0 {
      assert a + b == a;
    } else {
      var ab, init := a + b, b[..|b| - 1];
      CommentsTextAppend(a, init);
      assert ab[..|ab| - 1] == a + init;
      assert ab[|ab| - 1] == b[|b| - 1];
      assert CommentsText(ab) == CommentsText(a + init) + CommentLine(b[|b| - 1]);
      assert CommentsText(b) == CommentsText(init) + CommentLine(b[|b| - 1]);
    }
  }

  /** The content string opens with title and body (an absent body shows as empty) and then
      lists the comments one after the other. */
  lemma ContentStringShape(result: SearchResultItem)
    ensures StartsWith(ContentString(result), "Title: " + result.issueTitle + "\n\nBody: ")
    ensures result.issueBody.None? ==> ContentString(result) == "Title: " + result.issueTitle + "\n\nBody: \n\nComments:\n" + CommentsText(result.comments)
  {
    var p := "Title: " + result.issueTitle + "\n\nBody: ";
    assert ContentString(result) == p + (OrEmpty(result.issueBody) + "\n\nComments:\n" + CommentsText(result.comments));
    assert ContentString(result)[..|p|] == p;
  }

  /** Each comment contributes its own line, between the lines of the comments before and after it. */
  lemma {:induction false} CommentsTextAround(cs: seq<ScreenComment>, k: nat)
    requires k < |cs|
    ensures CommentsText(cs) == CommentsText(cs[..k]) + CommentLine(cs[k]) + CommentsText(cs[k + 1..])
  {
    var pre, c, post := cs[..k], cs[k], cs[k + 1..];
    assert cs == pre + [c] + post;
    CommentsTextAppend(pre + [c], post);
    CommentsTextAppend(pre, [c]);
    CommentsTextOne(c);
  }

  lemma CommentsTextOne(c: ScreenComment)
    ensures CommentsText([c]) == CommentLine(c)
  {
    assert [c][..0] == [];
  }

  // ---------------------------------------------------------------------------
  // The results dictionary
  // ---------------------------------------------------------------------------

  predicate Unique(d: seq<AnalysisRecord>) {
    forall i, j :: 0 <= i < j < |d| ==> d[i].issueNumber != d[j].issueNumber
  }

  function Numbers(d: seq<AnalysisRecord>): set<int> {
    set r | r in d :: r.issueNumber
  }

  /** Where the key sits in the dictionary, if it is there. */
  function IndexOfNumber(d: seq<AnalysisRecord>, k: int): (r: Option<nat>)
    ensures r.Some? ==> r.value < |d| && d[r.value].issueNumber == k
    ensures r.None? <==> k !in Numbers(d)
    decreases |d|
  {
    if |d| == 0 then None
    else if d[0].issueNumber == k then Some(0)
    else
      var rest := IndexOfNumber(d[1..], k);
      assert Numbers(d) == {d[0].issueNumber} + Numbers(d[1..]) by {
        assert d == [d[0]] + d[1..];
      }
      if rest.None? then None else Some(rest.value + 1)
  }

  /** `existing_results[record.issue_number] = record` */
  function Upsert(d: seq<AnalysisRecord>, record: AnalysisRecord): seq<AnalysisRecord> {
    match IndexOfNumber(d, record.issueNumber)
    case Some(i) => d[i := record]
    case None => d + [record]
  }

  /** The dictionary as a map from issue number to record. */
  function AsMap(d: seq<AnalysisRecord>): map<int, AnalysisRecord>
    decreases |d|
  {
    if |d| == 0 then map[] else AsMap(d[..|d| - 1])[d[|d| - 1].issueNumber := d[|d| - 1]]
  }

  /** The map has a key for every number in the dictionary and no other. */
  lemma {:induction false} AsMapKeys(d: seq<AnalysisRecord>)
    ensures AsMap(d).Keys == Numbers(d)
    decreases |d|
  {
    if |d| > 0 {
      var init := d[..|d| - 1];
      AsMapKeys(init);
      assert d == init + [d[|d| - 1]];
      assert Numbers(d) == Numbers(init) + {d[|d| - 1].issueNumber};
    }
  }

  /** With distinct numbers, each record is what the map holds for its number. */
  lemma {:induction false} AsMapOfUnique(d: seq<AnalysisRecord>)
    requires Unique(d)
    ensures AsMap(d).Keys == Numbers(d)
    ensures forall i :: 0 <= i < |d| ==> AsMap(d)[d[i].issueNumber] == d[i]
    decreases |d|
  {
    AsMapKeys(d);
    if |d| > 0 {
      var init := d[..|d| - 1];
      AsMapOfUnique(init);
      forall i | 0 <= i < |d|
        ensures AsMap(d)[d[i].issueNumber] == d[i]
      {
        if i < |d| - 1 {
          assert init[i] == d[i];
          assert d[i].issueNumber != d[|d| - 1].issueNumber;
        }
      }
    }
  }

  /** Replacing a record by one with the same number updates that one entry of the map. */
  lemma {:induction false} AsMapReplace(d: seq<AnalysisRecord>, i: nat, record: AnalysisRecord)
    requires Unique(d) && i < |d| && d[i].issueNumber == record.issueNumber
    ensures AsMap(d[i := record]) == AsMap(d)[record.issueNumber := record]
    decreases |d|
  {
    var n := |d|;
    var u := d[i := record];
    var init := d[..n - 1];
    if i < n - 1 {
      assert u[..n - 1] == init[i := record];
      assert Unique(init);
      AsMapReplace(init, i, record);
      assert u[n - 1] == d[n - 1];
      assert d[n - 1].issueNumber != record.issueNumber;
    } else {
      assert u[..n - 1] == init;
    }
  }

  /** Replacing a record by one with the same number keeps the numbers distinct. */
  lemma ReplaceKeepsUnique(d: seq<AnalysisRecord>, i: nat, record: AnalysisRecord)
    requires Unique(d) && i < |d| && d[i].issueNumber == record.issueNumber
    ensures Unique(d[i := record])
  {
    var u := d[i := record];
    forall a, b | 0 <= a < b < |u| ensures u[a].issueNumber != u[b].issueNumber {
      assert u[a].issueNumber == d[a].issueNumber && u[b].issueNumber == d[b].issueNumber;
    }
  }

  /** Appending a record under a new number keeps the numbers distinct and adds one entry. */
  lemma AppendNew(d: seq<AnalysisRecord>, record: AnalysisRecord)
    requires Unique(d) && record.issueNumber !in Numbers(d)
    ensures Unique(d + [record])
    ensures AsMap(d + [record]) == AsMap(d)[record.issueNumber := record]
  {
    var u := d + [record];
    assert u[..|u| - 1] == d;
    forall j | 0 <= j < |d| ensures d[j].issueNumber != record.issueNumber {
      assert d[j] in d;
    }
  }

  /** An upsert keeps the keys distinct and maps the record's number to the record, leaving
      every other entry alone: an existing key is updated in its place and a new key is added
      at the end. */
  lemma UpsertSpec(d: seq<AnalysisRecord>, record: AnalysisRecord)
    requires Unique(d)
    ensures Unique(Upsert(d, record))
    ensures AsMap(Upsert(d, record)) == AsMap(d)[record.issueNumber := record]
    ensures record.issueNumber in Numbers(d) ==>
      (&& |Upsert(d, record)| == |d|
       && forall i :: 0 <= i < |d| && d[i].issueNumber != record.issueNumber ==> Upsert(d, record)[i] == d[i])
    ensures record.issueNumber !in Numbers(d) ==> Upsert(d, record) == d + [record]
  {
    match IndexOfNumber(d, record.issueNumber)
    case None =>
      AppendNew(d, record);
    case Some(i) =>
      ReplaceKeepsUnique(d, i, record);
      AsMapReplace(d, i, record);
  }

  /** The map built by assigning each record to its number in turn. */
  function UpdateAll(m: map<int, AnalysisRecord>, records: seq<AnalysisRecord>): map<int, AnalysisRecord>
    decreases |records|
  {
    if |records| == 0 then m
    else UpdateAll(m, records[..|records| - 1])[records[|records| - 1].issueNumber := records[|records| - 1]]
  }

  /** In the updated map the last record with a number wins; numbers no record carries keep
      their old entry (or stay absent). */
  lemma {:induction false} UpdateAllLastWins(m: map<int, AnalysisRecord>, records: seq<AnalysisRecord>)
    ensures UpdateAll(m, records).Keys == m.Keys + Numbers(records)
    ensures forall j :: 0 <= j < |records| && (forall l :: j < l < |records| ==> records[l].issueNumber != records[j].issueNumber)
                ==> UpdateAll(m, records)[records[j].issueNumber] == records[j]
    ensures forall k :: k in m && k !in Numbers(records) ==> UpdateAll(m, records)[k] == m[k]
    decreases |records|
  {
    if |records| > 0 {
      var init := records[..|records| - 1];
      var last := records[|records| - 1];
      UpdateAllLastWins(m, init);
      assert records == init + [last];
      assert Numbers(records) == Numbers(init) + {last.issueNumber};
      forall j | 0 <= j < |records| && (forall l :: j < l < |records| ==> records[l].issueNumber != records[j].issueNumber)
        ensures UpdateAll(m, records)[records[j].issueNumber] == records[j]
      {
        if j < |records| - 1 {
          assert init[j] == records[j];
          assert forall l :: j < l < |init| ==> init[l] == records[l];
        }
      }
    }
  }

  /** `load_existing_results` over the records read from the file, one dictionary
      assignment per record. */
  function LoadRecords(data: seq<AnalysisRecord>): seq<AnalysisRecord>
    decreases |data|
  {
    if |data| == 0 then [] else Upsert(LoadRecords(data[..|data| - 1]), data[|data| - 1])
  }

  /** `load_existing_results`: an absent file gives the empty dictionary. */
  function LoadExisting(file: Option<seq<AnalysisRecord>>): seq<AnalysisRecord> {
    if file.None? then [] else LoadRecords(file.value)
  }

  /** Loading gives distinct keys and the map in which the later record for a number wins. */
  lemma {:induction false} LoadRecordsSpec(data: seq<AnalysisRecord>)
    ensures Unique(LoadRecords(data))
    ensures AsMap(LoadRecords(data)) == UpdateAll(map[], data)
    decreases |data|
  {
    if |data| > 0 {
      LoadRecordsSpec(data[..|data| - 1]);
      UpsertSpec(LoadRecords(data[..|data| - 1]), data[|data| - 1]);
    }
  }

  /** For a duplicated issue number the later record wins, and an absent file loads as empty. */
  lemma LaterRecordWins(data: seq<AnalysisRecord>, j: nat)
    requires j < |data|
    requires forall l :: j < l < |data| ==> data[l].issueNumber != data[j].issueNumber
    ensures data[j].issueNumber in AsMap(LoadExisting(Some(data)))
    ensures AsMap(LoadExisting(Some(data)))[data[j].issueNumber] == data[j]
    ensures LoadExisting(None) == []
  {
    LoadRecordsSpec(data);
    UpdateAllLastWins(map[], data);
    assert data[j] in data;
  }

  /** A file with distinct numbers, as `save_result` writes it, loads back unchanged. */
  lemma {:induction false} LoadWrittenFile(d: seq<AnalysisRecord>)
    requires Unique(d)
    ensures LoadRecords(d) == d
    decreases |d|
  {
    if |d| > 0 {
      var init := d[..|d| - 1];
      var last := d[|d| - 1];
      assert Unique(init);
      LoadWrittenFile(init);
      forall r | r in init
        ensures r.issueNumber != last.issueNumber
      {
        var i :| 0 <= i < |init| && init[i] == r;
        assert d[i] == r;
      }
      UpsertSpec(init, last);
      assert init + [last] == d;
    }
  }

  // ---------------------------------------------------------------------------
  // The results file
  // ---------------------------------------------------------------------------

  /** The file written by `save_result`: the loaded dictionary with the record upserted. */
  function SaveFile(file: Option<seq<AnalysisRecord>>, record: AnalysisRecord): Option<seq<AnalysisRecord>> {
    Some(Upsert(LoadExisting(file), record))
  }

  /** After a save, loading the file gives the old map with the record's number mapped to the
      record; every other entry is as before. */
  lemma SaveFileSpec(file: Option<seq<AnalysisRecord>>, record: AnalysisRecord)
    ensures Unique(SaveFile(file, record).value)
    ensures AsMap(LoadExisting(SaveFile(file, record))) == AsMap(LoadExisting(file))[record.issueNumber := record]
  {
    if file.Some? {
      LoadRecordsSpec(file.value);
    }
    UpsertSpec(LoadExisting(file), record);
    LoadWrittenFile(SaveFile(file, record).value);
  }

  /** The output file; `None` while it does not exist. */
  class ResultsFile {
    var records: Option<seq<AnalysisRecord>>

    constructor (initial: Option<seq<AnalysisRecord>>)
      ensures records == initial
    {
      records := initial;
    }

    /** `save_result`: read the file, upsert the record, write the file back. */
    method SaveResult(record: AnalysisRecord)
      modifies this
      ensures records == SaveFile(old(records), record)
    {
      var existing := LoadExisting(records);
      existing := Upsert(existing, record);
      records := Some(existing);
    }
  }

  /** The saves of a sequence of records, one after the other. */
  function SaveAll(file: Option<seq<AnalysisRecord>>, records: seq<AnalysisRecord>): Option<seq<AnalysisRecord>>
    decreases |records|
  {
    if |records| == 0 then file else SaveFile(SaveAll(file, records[..|records| - 1]), records[|records| - 1])
  }

  /** After several saves the loaded map is the old one updated by each record in turn. */
  lemma {:induction false} SaveAllSpec(file: Option<seq<AnalysisRecord>>, records: seq<AnalysisRecord>)
    ensures AsMap(LoadExisting(SaveAll(file, records))) == UpdateAll(AsMap(LoadExisting(file)), records)
    decreases |records|
  {
    if |records| > 0 {
      SaveAllSpec(file, records[..|records| - 1]);
      SaveFileSpec(SaveAll(file, records[..|records| - 1]), records[|records| - 1]);
    }
  }

  // ---------------------------------------------------------------------------
  // The main loop
  // ---------------------------------------------------------------------------

  function RecordFor(result: SearchResultItem, analysis: AnalysisResult): AnalysisRecord {
    AnalysisRecord(result.issueNumber, result.issueTitle, analysis)
  }

  /** The run over a prefix of the input: the file, the content strings sent, and whether the
      run is still going. Numbers in `skip` (those in the file at the start) are passed over;
      a failed oracle call ends the run with the file as the earlier saves left it. */
  function ScreenRun(results: seq<SearchResultItem>, skip: set<int>, file: Option<seq<AnalysisRecord>>, oracle: Oracle)
    : (Option<seq<AnalysisRecord>>, seq<string>, bool)
    decreases |results|
  {
    if |results| == 0 then (file, [], true)
    else
      var (f, calls, going) := ScreenRun(results[..|results| - 1], skip, file, oracle);
      var result := results[|results| - 1];
      if !going || result.issueNumber in skip then (f, calls, going)
      else
        var content := ContentString(result);
        var analysis := oracle(content);
        if analysis.None? then (f, calls + [content], false)
        else (SaveFile(f, RecordFor(result, analysis.value)), calls + [content], true)
  }

  /** A run that has stopped stays stopped. */
  lemma {:induction false} StoppedRunStaysStopped(results: seq<SearchResultItem>, m: nat, skip: set<int>,
                                                   file: Option<seq<AnalysisRecord>>, oracle: Oracle)
    requires m <= |results| && !ScreenRun(results[..m], skip, file, oracle).2
    ensures ScreenRun(results, skip, file, oracle) == ScreenRun(results[..m], skip, file, oracle)
    decreases |results| - m
  {
    if m < |results| {
      assert results[..m + 1][..m] == results[..m];
      StoppedRunStaysStopped(results, m + 1, skip, file, oracle);
    } else {
      assert results[..m] == results;
    }
  }

  /** `main`: the skip set is read from the file once, before the loop. */
  method ScreenAll(results: seq<SearchResultItem>, out: ResultsFile, oracle: Oracle)
    returns (calls: seq<string>, completed: bool)
    modifies out
    ensures (out.records, calls, completed)
         == ScreenRun(results, Numbers(LoadExisting(old(out.records))), old(out.records), oracle)
  {
    ghost var start := out.records;
    var existing := LoadExisting(out.records);
    var skip := Numbers(existing);
    calls := [];
    completed := true;
    var i := 0;
    while i < |results|
      invariant 0 <= i <= |results|
      invariant (out.records, calls, true) == ScreenRun(results[..i], skip, start, oracle)
    {
      var result := results[i];
      assert results[..i + 1][..i] == results[..i];
      if result.issueNumber in skip {
        i := i + 1;
        continue;
      }
      var content := ProcessSearchResult(result);
      calls := calls + [content];
      var analysis := oracle(content);
      if analysis.None? {
        completed := false;
        StoppedRunStaysStopped(results, i + 1, skip, start, oracle);
        return;
      }
      var record := AnalysisRecord(result.issueNumber, result.issueTitle, analysis.value);
      out.SaveResult(record);
      i := i + 1;
    }
    assert results[..|results|] == results;
  }

  // ---------------------------------------------------------------------------
  // Properties of a run
  // ---------------------------------------------------------------------------

  /** The results the run analyses: those whose number is not in the skip set, in input
      order and with repeats. */
  function Analysed(results: seq<SearchResultItem>, skip: set<int>): (a: seq<SearchResultItem>)
    ensures forall x :: x in a <==> x in results && x.issueNumber !in skip
    decreases |results|
  {
    if |results| == 0 then []
    else
      var rest := Analysed(results[..|results| - 1], skip);
      var last := results[|results| - 1];
      assert results == results[..|results| - 1] + [last];
      if last.issueNumber in skip then rest else rest + [last]
  }

  function ContentsOf(items: seq<SearchResultItem>): seq<string> {
    seq(|items|, i requires 0 <= i < |items| => ContentString(items[i]))
  }

  predicate AllAnswered(items: seq<SearchResultItem>, oracle: Oracle) {
    forall i :: 0 <= i < |items| ==> oracle(ContentString(items[i])).Some?
  }

  function RecordsOf(items: seq<SearchResultItem>, oracle: Oracle): seq<AnalysisRecord>
    requires AllAnswered(items, oracle)
  {
    seq(|items|, i requires 0 <= i < |items| => RecordFor(items[i], oracle(ContentString(items[i])).value))
  }

  lemma ContentsOfAppend(a: seq<SearchResultItem>, x: SearchResultItem)
    ensures ContentsOf(a + [x]) == ContentsOf(a) + [ContentString(x)]
  {
  }

  lemma RecordsOfAppend(a: seq<SearchResultItem>, x: SearchResultItem, oracle: Oracle)
    requires AllAnswered(a + [x], oracle) && oracle(ContentString(x)).Some?
    ensures AllAnswered(a, oracle)
    ensures RecordsOf(a + [x], oracle) == RecordsOf(a, oracle) + [RecordFor(x, oracle(ContentString(x)).value)]
  {
    assert forall i :: 0 <= i < |a| ==> (a + [x])[i] == a[i];
  }

  /** When every analysed result gets an answer, the run completes, sends exactly one content
      string per analysed result, in order, and saves their records one after the other. */
  lemma {:induction false} CompletedRun(results: seq<SearchResultItem>, skip: set<int>,
                                         file: Option<seq<AnalysisRecord>>, oracle: Oracle)
    requires AllAnswered(Analysed(results, skip), oracle)
    ensures ScreenRun(results, skip, file, oracle)
         == (SaveAll(file, RecordsOf(Analysed(results, skip), oracle)), ContentsOf(Analysed(results, skip)), true)
    decreases |results|
  {
    if |results| > 0 {
      var init := results[..|results| - 1];
      var last := results[|results| - 1];
      var a := Analysed(init, skip);
      if last.issueNumber in skip {
        assert Analysed(results, skip) == a;
        CompletedRun(init, skip, file, oracle);
      } else {
        assert Analysed(results, skip) == a + [last];
        assert (a + [last])[|a|] == last;
        RecordsOfAppend(a, last, oracle);
        CompletedRun(init, skip, file, oracle);
        ContentsOfAppend(a, last);
        var content := ContentString(last);
        var record := RecordFor(last, oracle(content).value);
        var recs := RecordsOf(a + [last], oracle);
        assert recs == RecordsOf(a, oracle) + [record];
        assert recs[..|recs| - 1] == RecordsOf(a, oracle);
        assert SaveAll(file, recs) == SaveFile(SaveAll(file, RecordsOf(a, oracle)), record);
        assert ScreenRun(results, skip, file, oracle)
            == (SaveFile(SaveAll(file, RecordsOf(a, oracle)), record), ContentsOf(a) + [content], true);
      }
    } else {
      assert RecordsOf(Analysed(results, skip), oracle) == [];
      assert ContentsOf(Analysed(results, skip)) == [];
    }
  }

  /** When the oracle fails on the n-th analysed result, the run stops there: the first n+1
      content strings were sent, and the file holds the saves of the first n records only. */
  lemma {:induction false} FailedRun(results: seq<SearchResultItem>, skip: set<int>,
                                      file: Option<seq<AnalysisRecord>>, oracle: Oracle, n: nat)
    requires n < |Analysed(results, skip)|
    requires AllAnswered(Analysed(results, skip)[..n], oracle)
    requires oracle(ContentString(Analysed(results, skip)[n])).None?
    ensures ScreenRun(results, skip, file, oracle)
         == (SaveAll(file, RecordsOf(Analysed(results, skip)[..n], oracle)),
             ContentsOf(Analysed(results, skip)[..n + 1]), false)
    decreases |results|
  {
    var init := results[..|results| - 1];
    var last := results[|results| - 1];
    var a := Analysed(init, skip);
    var all := Analysed(results, skip);
    if n < |a| {
      assert all[..n] == a[..n] && all[n] == a[n] && all[..n + 1] == a[..n + 1] by {
        assert all == a || all == a + [last];
      }
      FailedRun(init, skip, file, oracle, n);
    } else {
      assert last.issueNumber !in skip && all == a + [last] && n == |a|;
      assert all[..n] == a;
      CompletedRun(init, skip, file, oracle);
      ContentsOfAppend(a, last);
      assert all[..n + 1] == all;
    }
  }

  /** No numbers of the input are in the file at the start: every result is analysed, a
      repeated number included, once per occurrence. */
  lemma NothingStoredAnalysesAll(results: seq<SearchResultItem>, skip: set<int>)
    requires forall i :: 0 <= i < |results| ==> results[i].issueNumber !in skip
    ensures Analysed(results, skip) == results
  {
    if |results| > 0 {
      NothingStoredAnalysesAll(results[..|results| - 1], skip);
      assert results == results[..|results| - 1] + [results[|results| - 1]];
    }
  }

  /** After a completed run the loaded map is the start map updated by each analysed record in turn. */
  lemma CompletedRunMap(results: seq<SearchResultItem>, file: Option<seq<AnalysisRecord>>, oracle: Oracle)
    requires AllAnswered(Analysed(results, Numbers(LoadExisting(file))), oracle)
    ensures var skip := Numbers(LoadExisting(file));
      AsMap(LoadExisting(ScreenRun(results, skip, file, oracle).0))
        == UpdateAll(AsMap(LoadExisting(file)), RecordsOf(Analysed(results, skip), oracle))
  {
    var skip := Numbers(LoadExisting(file));
    CompletedRun(results, skip, file, oracle);
    SaveAllSpec(file, RecordsOf(Analysed(results, skip), oracle));
  }

  /** The analysed records carry no number of the skip set. */
  lemma AnalysedRecordsAvoidSkip(results: seq<SearchResultItem>, skip: set<int>, oracle: Oracle)
    requires AllAnswered(Analysed(results, skip), oracle)
    ensures forall k :: k in skip ==> k !in Numbers(RecordsOf(Analysed(results, skip), oracle))
  {
    var a := Analysed(results, skip);
    var recs := RecordsOf(a, oracle);
    forall k | k in Numbers(recs)
      ensures k !in skip
    {
      var r :| r in recs && r.issueNumber == k;
      var j :| 0 <= j < |recs| && recs[j] == r;
      assert a[j] in a;
    }
  }

  /** After a completed run, a number's entry in the file is the record of its last analysed
      occurrence. */
  lemma LastSaveWins(results: seq<SearchResultItem>, file: Option<seq<AnalysisRecord>>, oracle: Oracle)
    requires AllAnswered(Analysed(results, Numbers(LoadExisting(file))), oracle)
    ensures var skip := Numbers(LoadExisting(file));
      var a := Analysed(results, skip);
      var final := AsMap(LoadExisting(ScreenRun(results, skip, file, oracle).0));
      forall j :: 0 <= j < |a| && (forall l :: j < l < |a| ==> a[l].issueNumber != a[j].issueNumber)
        ==> a[j].issueNumber in final && final[a[j].issueNumber] == RecordsOf(a, oracle)[j]
  {
    var skip := Numbers(LoadExisting(file));
    var a := Analysed(results, skip);
    forall j | 0 <= j < |a| && (forall l :: j < l < |a| ==> a[l].issueNumber != a[j].issueNumber)
      ensures var final := AsMap(LoadExisting(ScreenRun(results, skip, file, oracle).0));
        a[j].issueNumber in final && final[a[j].issueNumber] == RecordsOf(a, oracle)[j]
    {
      LastSaveWinsAt(results, file, oracle, j);
    }
  }

  lemma LastSaveWinsAt(results: seq<SearchResultItem>, file: Option<seq<AnalysisRecord>>, oracle: Oracle, j: nat)
    requires AllAnswered(Analysed(results, Numbers(LoadExisting(file))), oracle)
    requires var a := Analysed(results, Numbers(LoadExisting(file)));
      j < |a| && forall l :: j < l < |a| ==> a[l].issueNumber != a[j].issueNumber
    ensures var skip := Numbers(LoadExisting(file));
      var a := Analysed(results, skip);
      var final := AsMap(LoadExisting(ScreenRun(results, skip, file, oracle).0));
      a[j].issueNumber in final && final[a[j].issueNumber] == RecordsOf(a, oracle)[j]
  {
    var skip := Numbers(LoadExisting(file));
    var a := Analysed(results, skip);
    var recs := RecordsOf(a, oracle);
    var start := AsMap(LoadExisting(file));
    CompletedRunMap(results, file, oracle);
    assert forall l :: 0 <= l < |a| ==> recs[l].issueNumber == a[l].issueNumber;
    LastRecordWins(start, recs, j);
  }

  lemma LastRecordWins(m: map<int, AnalysisRecord>, records: seq<AnalysisRecord>, j: nat)
    requires j < |records|
    requires forall l :: j < l < |records| ==> records[l].issueNumber != records[j].issueNumber
    ensures records[j].issueNumber in UpdateAll(m, records)
    ensures UpdateAll(m, records)[records[j].issueNumber] == records[j]
  {
    UpdateAllLastWins(m, records);
    assert records[j] in records;
  }

  /** After a completed run, the numbers that were skipped keep the record found at the start. */
  lemma SkippedKeepTheirRecord(results: seq<SearchResultItem>, file: Option<seq<AnalysisRecord>>, oracle: Oracle)
    requires AllAnswered(Analysed(results, Numbers(LoadExisting(file))), oracle)
    ensures var skip := Numbers(LoadExisting(file));
      var start := AsMap(LoadExisting(file));
      var final := AsMap(LoadExisting(ScreenRun(results, skip, file, oracle).0));
      forall k :: k in skip ==> k in final && k in start && final[k] == start[k]
  {
    var skip := Numbers(LoadExisting(file));
    var recs := RecordsOf(Analysed(results, skip), oracle);
    CompletedRunMap(results, file, oracle);
    UpdateAllLastWins(AsMap(LoadExisting(file)), recs);
    AsMapKeys(LoadExisting(file));
    AnalysedRecordsAvoidSkip(results, skip, oracle);
  }
}
