/** The tag join of post-filtering.py: each change report's `integration:` tags become
    integration page URIs, stored in place as the report's involved APIs, and the reports and
    integrations are then filtered against the list of known integration APIs. */
module TagJoin {
  import opened Wrappers
  import opened Text
  import BatchStore
  import IntegrationDocs

  const INTEGRATION_BASE_URL: string := "https://www.home-assistant.io/integrations/"

  const TAG_PREFIX: string := "integration:"

  const SEPARATOR: string := ": "

  datatype ChangeReport = ChangeReport(
    number: int,
    title: string,
    body: Option<string>,
    comments: seq<BatchStore.Comment>,
    involvedApis: seq<string>,
    tags: seq<string>)

  /** The `IndexError` of `tag.split(": ")[1]` on a tag without the separator. */
  datatype Error = MissingSeparator(tag: string)

  // ---------------------------------------------------------------------------------
  // Tags to URIs

  /** The text between the first separator and the next one, or the end. */
  function Segment(tag: string): string
    requires Contains(tag, SEPARATOR)
  {
    var i := Find(tag, SEPARATOR).value;
    var rest := tag[i + |SEPARATOR|..];
    match Find(rest, SEPARATOR)
    case None => rest
    case Some(j) => rest[..j]
  }

  function TagUri(tag: string): (r: Result<string, Error>)
    ensures r.Success? <==> Contains(tag, SEPARATOR)
    ensures r.Success? ==> r.value == INTEGRATION_BASE_URL + Segment(tag)
    ensures r.Failure? ==> r.error == MissingSeparator(tag)
  {
    var parts := Split(tag, SEPARATOR);
    if |parts| < 2 then Failure(MissingSeparator(tag))
    else
      SplitSecond(tag, SEPARATOR);
      Success(INTEGRATION_BASE_URL + parts[1])
  }

  predicate IsIntegrationTag(tag: string) {
    StartsWith(tag, TAG_PREFIX)
  }

  /** The `integration:` tags, in tag order. */
  function IntegrationTags(tags: seq<string>): (r: seq<string>)
    ensures forall t :: t in r <==> t in tags && IsIntegrationTag(t)
    decreases |tags|
  {
    if tags == [] then []
    else
      assert forall t :: t in tags <==> t == tags[0] || t in tags[1..];
      (if IsIntegrationTag(tags[0]) then [tags[0]] else []) + IntegrationTags(tags[1..])
  }

  /** `extract_integration_uris_from_tags`: one URI per `integration:` tag, in order; the
      first such tag without the separator raises. */
  function ExtractIntegrationUrisFromTags(tags: seq<string>): Result<seq<string>, Error>
    decreases |tags|
  {
    if tags == [] then Success([])
    else
      var rest := ExtractIntegrationUrisFromTags(tags[1..]);
      if !IsIntegrationTag(tags[0]) then rest
      else
        match TagUri(tags[0])
        case Failure(e) => Failure(e)
        case Success(u) =>
          match rest
          case Failure(e) => Failure(e)
          case Success(us) => Success([u] + us)
  }

  /** Extraction succeeds exactly when every `integration:` tag has the separator; it then
      gives, in tag order, the base URL followed by each such tag's segment, and otherwise
      reports a tag that lacks the separator. */
  lemma {:induction false} ExtractSpec(tags: seq<string>)
    ensures var r := ExtractIntegrationUrisFromTags(tags);
      && (r.Success? <==> forall t :: t in IntegrationTags(tags) ==> Contains(t, SEPARATOR))
      && (r.Success? ==> |r.value| == |IntegrationTags(tags)|)
      && (r.Success? ==> forall j :: 0 <= j < |r.value| ==>
            r.value[j] == INTEGRATION_BASE_URL + Segment(IntegrationTags(tags)[j]))
      && (r.Failure? ==> exists t :: t in IntegrationTags(tags) && !Contains(t, SEPARATOR) && r.error == MissingSeparator(t))
    decreases |tags|
  {
    if tags != [] {
      ExtractSpec(tags[1..]);
      var it := IntegrationTags(tags);
      var rest := IntegrationTags(tags[1..]);
      if IsIntegrationTag(tags[0]) {
        assert it == [tags[0]] + rest;
        assert tags[0] in it;
      } else {
        assert it == rest;
      }
    }
  }

  /** A tag `integration: <name>`, with no colon in the name, gives the name's page. */
  lemma TagForName(name: string)
    requires forall k :: 0 <= k < |name| ==> name[k] != ':'
    ensures IsIntegrationTag("integration: " + name)
    ensures TagUri("integration: " + name) == Success(INTEGRATION_BASE_URL + name)
  {
    var head := "integration: ";
    var tag := head + name;
    assert tag[..12] == TAG_PREFIX;
    assert tag[11..13] == SEPARATOR;
    forall j | 0 <= j < 11 ensures !OccursAt(tag, j, SEPARATOR) {
      assert tag[j] == head[j];
      assert tag[j..j + 2][0] == tag[j];
    }
    FindFirst(tag, SEPARATOR, 11);
    assert tag[13..] == name;
    MissingChar(name, SEPARATOR, ':');
  }

  lemma ExtractCons(t: string, rest: seq<string>)
    ensures ExtractIntegrationUrisFromTags([t] + rest) ==
      if !IsIntegrationTag(t) then ExtractIntegrationUrisFromTags(rest)
      else if TagUri(t).Failure? then Failure(TagUri(t).error)
      else if ExtractIntegrationUrisFromTags(rest).Failure? then ExtractIntegrationUrisFromTags(rest)
      else Success([TagUri(t).value] + ExtractIntegrationUrisFromTags(rest).value)
  {
    assert ([t] + rest)[1..] == rest;
  }

  /** Other tags contribute nothing: `["integration: <name>", other]` gives the one URI. */
  lemma ExtractExample(name: string, other: string)
    requires forall k :: 0 <= k < |name| ==> name[k] != ':'
    requires !IsIntegrationTag(other)
    ensures ExtractIntegrationUrisFromTags(["integration: " + name, other]) == Success([INTEGRATION_BASE_URL + name])
  {
    var tag := "integration: " + name;
    TagForName(name);
    ExtractCons(other, []);
    assert [other] + [] == [other];
    assert ExtractIntegrationUrisFromTags([]) == Success([]);
    assert ExtractIntegrationUrisFromTags([other]) == Success([]);
    ExtractCons(tag, [other]);
    assert [tag] + [other] == [tag, other];
    assert TagUri(tag) == Success(INTEGRATION_BASE_URL + name);
    var uri := INTEGRATION_BASE_URL + name;
    assert ExtractIntegrationUrisFromTags([tag, other]) == Success([uri] + []);
    assert [uri] + [] == [uri];
  }

  // ---------------------------------------------------------------------------------
  // The two filters

  predicate Involves(report: ChangeReport, apis: seq<string>) {
    exists a :: a in report.involvedApis && a in apis
  }

  /** `filter_reports_by_apis`. */
  function FilterReportsByApis(reports: seq<ChangeReport>, apis: seq<string>): (kept: seq<ChangeReport>)
    ensures |kept| <= |reports|
    ensures forall r :: r in kept <==> r in reports && Involves(r, apis)
    decreases |reports|
  {
    if reports == [] then []
    else
      assert forall r :: r in reports <==> r == reports[0] || r in reports[1..];
      (if Involves(reports[0], apis) then [reports[0]] else []) + FilterReportsByApis(reports[1..], apis)
  }

  /** `filter_integrations_by_apis`. */
  function FilterIntegrationsByApis(integrations: seq<IntegrationDocs.IntegrationInfo>, apis: seq<string>)
    : (kept: seq<IntegrationDocs.IntegrationInfo>)
    ensures |kept| <= |integrations|
    ensures forall x :: x in kept <==> x in integrations && x.api in apis
    decreases |integrations|
  {
    if integrations == [] then []
    else
      assert forall x :: x in integrations <==> x == integrations[0] || x in integrations[1..];
      (if integrations[0].api in apis then [integrations[0]] else []) + FilterIntegrationsByApis(integrations[1..], apis)
  }

  /** Order is kept: filtering distributes over concatenation. */
  lemma {:induction false} FilterReportsAppend(a: seq<ChangeReport>, b: seq<ChangeReport>, apis: seq<string>)
    ensures FilterReportsByApis(a + b, apis) == FilterReportsByApis(a, apis) + FilterReportsByApis(b, apis)
    decreases |a|
  {
    if a == [] {
      assert a + b == b;
    } else {
      assert (a + b)[1..] == a[1..] + b;
      FilterReportsAppend(a[1..], b, apis);
    }
  }

  lemma {:induction false} FilterIntegrationsAppend(a: seq<IntegrationDocs.IntegrationInfo>, b: seq<IntegrationDocs.IntegrationInfo>, apis: seq<string>)
    ensures FilterIntegrationsByApis(a + b, apis) == FilterIntegrationsByApis(a, apis) + FilterIntegrationsByApis(b, apis)
    decreases |a|
  {
    if a == [] {
      assert a + b == b;
    } else {
      assert (a + b)[1..] == a[1..] + b;
      FilterIntegrationsAppend(a[1..], b, apis);
    }
  }

  function ApisOf(integrations: seq<IntegrationDocs.IntegrationInfo>): seq<string> {
    seq(|integrations|, k requires 0 <= k < |integrations| => integrations[k].api)
  }

  lemma {:induction false} FilterKeepsListed(integrations: seq<IntegrationDocs.IntegrationInfo>, apis: seq<string>)
    requires forall k :: 0 <= k < |integrations| ==> integrations[k].api in apis
    ensures FilterIntegrationsByApis(integrations, apis) == integrations
    decreases |integrations|
  {
    if integrations != [] {
      FilterKeepsListed(integrations[1..], apis);
    }
  }

  /** Filtering the integrations by their own API list, as the script does, drops none. */
  lemma IntegrationFilterKeepsAll(integrations: seq<IntegrationDocs.IntegrationInfo>)
    ensures FilterIntegrationsByApis(integrations, ApisOf(integrations)) == integrations
  {
    forall k | 0 <= k < |integrations| ensures integrations[k].api in ApisOf(integrations) {
      assert ApisOf(integrations)[k] == integrations[k].api;
    }
    FilterKeepsListed(integrations, ApisOf(integrations));
  }

  /** The URIs a report's tags give, or the report unchanged when they raise. */
  function WithInvolvedApis(report: ChangeReport): ChangeReport {
    match ExtractIntegrationUrisFromTags(report.tags)
    case Success(uris) => report.(involvedApis := uris)
    case Failure(_) => report
  }

  /** The loop of `main` that overwrites every report's `involved_apis` in place; a tag
      without the separator raises there and leaves the later reports untouched. */
  method AssignInvolvedApis(reports: array<ChangeReport>) returns (error: Option<Error>)
    modifies reports
    ensures error.None? <==> forall k :: 0 <= k < reports.Length ==> ExtractIntegrationUrisFromTags(old(reports[k]).tags).Success?
    ensures error.None? ==> forall k :: 0 <= k < reports.Length ==> reports[k] == WithInvolvedApis(old(reports[k]))
    ensures error.Some? ==>
      exists n :: && 0 <= n < reports.Length
                  && ExtractIntegrationUrisFromTags(old(reports[n]).tags) == Failure(error.value)
                  && (forall k :: 0 <= k < n ==> ExtractIntegrationUrisFromTags(old(reports[k]).tags).Success?)
                  && (forall k :: 0 <= k < n ==> reports[k] == WithInvolvedApis(old(reports[k])))
                  && (forall k :: n <= k < reports.Length ==> reports[k] == old(reports[k]))
  {
    var i := 0;
    while i < reports.Length
      invariant 0 <= i <= reports.Length
      invariant forall k :: 0 <= k < i ==> ExtractIntegrationUrisFromTags(old(reports[k]).tags).Success?
      invariant forall k :: 0 <= k < i ==> reports[k] == WithInvolvedApis(old(reports[k]))
      invariant forall k :: i <= k < reports.Length ==> reports[k] == old(reports[k])
    {
      var uris := ExtractIntegrationUrisFromTags(reports[i].tags);
      if uris.Failure? {
        return Some(uris.error);
      }
      reports[i] := reports[i].(involvedApis := uris.value);
      i := i + 1;
    }
    return None;
  }

  /** `main` after loading: assign the involved APIs, then filter both lists by the
      integrations' own API list. */
  method PostFilter(reports: array<ChangeReport>, integrations: seq<IntegrationDocs.IntegrationInfo>)
    returns (r: Result<(seq<ChangeReport>, seq<IntegrationDocs.IntegrationInfo>), Error>)
    modifies reports
    ensures r.Success? <==> forall k :: 0 <= k < reports.Length ==> ExtractIntegrationUrisFromTags(old(reports[k]).tags).Success?
    ensures r.Success? ==> reports[..] == seq(reports.Length, k requires 0 <= k < reports.Length reads reports => WithInvolvedApis(old(reports[k])))
    ensures r.Success? ==> r.value.0 == FilterReportsByApis(reports[..], ApisOf(integrations))
    ensures r.Success? ==> r.value.1 == integrations
    ensures r.Success? ==> forall rep :: rep in r.value.0 ==>
      exists a, x :: a in rep.involvedApis && x in integrations && x.api == a
  {
    var error := AssignInvolvedApis(reports);
    if error.Some? {
      return Failure(error.value);
    }
    var integrationApis := ApisOf(integrations);
    var filteredReports := FilterReportsByApis(reports[..], integrationApis);
    var filteredIntegrations := FilterIntegrationsByApis(integrations, integrationApis);
    IntegrationFilterKeepsAll(integrations);
    forall rep | rep in filteredReports ensures exists a, x :: a in rep.involvedApis && x in integrations && x.api == a {
      var a :| a in rep.involvedApis && a in integrationApis;
      var k :| 0 <= k < |integrationApis| && integrationApis[k] == a;
      assert integrations[k] in integrations;
    }
    return Success((filteredReports, filteredIntegrations));
  }
}
