/** Integration metadata from data-gathering-integration-documentations.py: each Home
    Assistant integration page yields its introduction version and IoT class (two regex
    captures, written here as scanners), the deployment type and communication mechanism
    derived from the IoT class, and the integrations with a valid class and category are kept.

    A page is given already parsed: the sidebar, its intro section, the article and the
    category links are optional strings, and the HTTP fetch is a function parameter that
    may raise. */
module IntegrationDocs {
  import opened Wrappers
  import opened Text

  const VALID_IOT_CLASSES: seq<string> := ["Local Polling", "Cloud Polling", "Local Push", "Cloud Push"]

  const VALID_IOT_CATEGORY: seq<string> := [
    "Alarm", "Automation", "Binary Sensor", "Button", "Camera", "Car", "Climate", "Cover",
    "Device automation", "Device tracker", "Doorbell", "Energy", "Environment", "Fan", "Health",
    "Hub", "Humidifier", "Image", "Irrigation", "Lawnmower", "Light", "Lock", "Media player",
    "Media source", "Number", "Plug", "Presence detection", "Scene", "Select", "Sensor", "Siren",
    "Switch", "Transport", "Vaccum", "Valve", "Voice", "Water heater", "Weather"]

  const SITE_URL: string := "https://www.home-assistant.io/"

  const VERSION_PREFIX: string := "introduced in Home Assistant "

  const IOT_CLASS_PREFIX: string := "Its IoT class is "

  datatype IntegrationInfo = IntegrationInfo(
    api: string,
    introductionVersion: string,
    iotClass: string,
    content: string,
    categories: seq<string>,
    deploymentType: string,
    communicationMechanism: string)

  /** The parts of an integration page the scraper looks at. */
  datatype Page = Page(
    sidebar: Option<Sidebar>,
    article: Option<string>,
    categoryLinks: Option<seq<string>>)

  /** The `integration-sidebar` aside and the text of its first `aside-module` section. */
  datatype Sidebar = Sidebar(intro: Option<string>)

  datatype Response = Response(status: int, page: Page)

  // ---------------------------------------------------------------------------------
  // `introduced in Home Assistant ([\d.]+)`

  predicate IsVersionChar(c: char) {
    IsDigit(c) || c == '.'
  }

  /** The pattern matches at `i`: the prefix, then at least one version character. */
  predicate VersionMatchAt(s: string, i: int) {
    OccursAt(s, i, VERSION_PREFIX) && i + |VERSION_PREFIX| < |s| && IsVersionChar(s[i + |VERSION_PREFIX|])
  }

  /** The end of the longest run of version characters starting at `j`. */
  function RunEnd(s: string, j: nat): (k: nat)
    requires j <= |s|
    ensures j <= k <= |s|
    ensures forall m :: j <= m < k ==> IsVersionChar(s[m])
    ensures k == |s| || !IsVersionChar(s[k])
    decreases |s| - j
  {
    if j == |s| || !IsVersionChar(s[j]) then j else RunEnd(s, j + 1)
  }

  /** The leftmost match at or after `i`. */
  function FirstVersionMatch(s: string, i: nat): (r: Option<nat>)
    ensures r.Some? ==> i <= r.value && VersionMatchAt(s, r.value)
    ensures r.Some? ==> forall j :: i <= j < r.value ==> !VersionMatchAt(s, j)
    ensures r.None? ==> forall j :: i <= j ==> !VersionMatchAt(s, j)
    decreases |s| - i
  {
    if i >= |s| then None
    else if VersionMatchAt(s, i) then Some(i)
    else FirstVersionMatch(s, i + 1)
  }

  /** `v` is group 1 of the leftmost match, which starts at `i`: the greedy `[\d.]+` run. */
  ghost predicate VersionCapture(s: string, i: int, v: string) {
    var j := i + |VERSION_PREFIX|;
    && VersionMatchAt(s, i)
    && (forall i' :: 0 <= i' < i ==> !VersionMatchAt(s, i'))
    && |v| > 0 && j + |v| <= |s| && v == s[j..j + |v|]
    && (forall m :: 0 <= m < |v| ==> IsVersionChar(v[m]))
    && (j + |v| == |s| || !IsVersionChar(s[j + |v|]))
  }

  function ExtractIntroductionVersion(text: string): (r: string)
    ensures r != "Unknown" <==> exists i :: VersionMatchAt(text, i)
    ensures r != "Unknown" ==> exists i :: VersionCapture(text, i, r)
  {
    match FirstVersionMatch(text, 0)
    case None => "Unknown"
    case Some(i) =>
      var j := i + |VERSION_PREFIX|;
      var v := text[j..RunEnd(text, j)];
      assert v[0] == text[j];
      assert VersionCapture(text, i, v);
      assert v != "Unknown" by {
        if |v| == 7 {
          assert v[0] != 'U';
        }
      }
      v
  }

  // ---------------------------------------------------------------------------------
  // `Its IoT class is (.+?)\.`

  /** The pattern matches at `i` with the capture ending before the `.` at `k`: at least one
      character, none of them a newline (`.` does not match one). */
  predicate ClassMatchAt(s: string, i: int, k: int) {
    && OccursAt(s, i, IOT_CLASS_PREFIX)
    && i + |IOT_CLASS_PREFIX| < k < |s|
    && s[k] == '.'
    && forall m :: i + |IOT_CLASS_PREFIX| <= m < k ==> s[m] != '\n'
  }

  /** The first `.` or newline at or after `m`, or the end. */
  function StopFrom(s: string, m: nat): (k: nat)
    requires m <= |s|
    ensures m <= k <= |s|
    ensures forall q :: m <= q < k ==> s[q] != '.' && s[q] != '\n'
    ensures k == |s| || s[k] == '.' || s[k] == '\n'
    decreases |s| - m
  {
    if m == |s| || s[m] == '.' || s[m] == '\n' then m else StopFrom(s, m + 1)
  }

  /** Where the lazy capture at `i` ends, if the pattern matches there. */
  function ClassEnd(s: string, i: nat): Option<nat> {
    var j := i + |IOT_CLASS_PREFIX|;
    if OccursAt(s, i, IOT_CLASS_PREFIX) && j < |s| && s[j] != '\n' then
      var k := StopFrom(s, j + 1);
      if k < |s| && s[k] == '.' then Some(k) else None
    else None
  }

  /** `ClassEnd` finds the shortest capture at `i`, and finds one whenever there is one. */
  lemma ClassEndSpec(s: string, i: nat)
    ensures ClassEnd(s, i).Some? ==> ClassMatchAt(s, i, ClassEnd(s, i).value)
    ensures ClassEnd(s, i).Some? ==> forall k :: 0 <= k < ClassEnd(s, i).value ==> !ClassMatchAt(s, i, k)
    ensures ClassEnd(s, i).None? ==> forall k :: !ClassMatchAt(s, i, k)
  {
    var j := i + |IOT_CLASS_PREFIX|;
    forall k | ClassMatchAt(s, i, k) ensures ClassEnd(s, i).Some? && ClassEnd(s, i).value <= k {
      assert s[j] != '\n';
      var k0 := StopFrom(s, j + 1);
      assert k0 <= k;
      if k0 < k {
        assert s[k0] != '\n';
      }
    }
  }

  /** The leftmost match at or after `i`, with its capture end. */
  function FirstClassMatch(s: string, i: nat): (r: Option<(nat, nat)>)
    ensures r.Some? ==> i <= r.value.0 && ClassEnd(s, r.value.0) == Some(r.value.1)
    ensures r.Some? ==> forall j :: i <= j < r.value.0 ==> ClassEnd(s, j).None?
    ensures r.None? ==> forall j :: i <= j ==> ClassEnd(s, j).None?
    decreases |s| - i
  {
    if i >= |s| then None
    else
      match ClassEnd(s, i)
      case Some(k) => Some((i, k))
      case None => FirstClassMatch(s, i + 1)
  }

  /** `s[i + |prefix|..k]` is group 1 of the leftmost match, which starts at `i`, with the
      lazy `.+?` stopping at the first possible `.`. */
  ghost predicate ClassCapture(s: string, i: int, k: int) {
    && ClassMatchAt(s, i, k)
    && (forall i', k' :: 0 <= i' < i ==> !ClassMatchAt(s, i', k'))
    && (forall k' :: k' < k ==> !ClassMatchAt(s, i, k'))
  }

  /** Lifts `ClassEndSpec` over the leftmost-match search. */
  lemma FirstClassMatchSpec(s: string)
    ensures FirstClassMatch(s, 0).None? ==> forall i, k :: !ClassMatchAt(s, i, k)
    ensures FirstClassMatch(s, 0).Some? ==> ClassCapture(s, FirstClassMatch(s, 0).value.0, FirstClassMatch(s, 0).value.1)
  {
    forall i: nat, k | FirstClassMatch(s, 0).None? ensures !ClassMatchAt(s, i, k) {
      ClassEndSpec(s, i);
    }
    if FirstClassMatch(s, 0).Some? {
      var (i, k) := FirstClassMatch(s, 0).value;
      ClassEndSpec(s, i);
      forall i': nat, k' | i' < i ensures !ClassMatchAt(s, i', k') {
        ClassEndSpec(s, i');
      }
    }
  }

  function ExtractIotClass(text: string): (r: string)
    ensures (forall i, k :: !ClassMatchAt(text, i, k)) ==> r == "Unknown"
    ensures (exists i, k :: ClassMatchAt(text, i, k)) ==>
      exists i, k :: ClassCapture(text, i, k) && r == text[i + |IOT_CLASS_PREFIX|..k]
  {
    FirstClassMatchSpec(text);
    match FirstClassMatch(text, 0)
    case None => "Unknown"
    case Some((i, k)) => text[i + |IOT_CLASS_PREFIX|..k]
  }

  // ---------------------------------------------------------------------------------
  // Fields derived from the IoT class

  function DeploymentType(iotClass: string): (d: string)
    ensures d == "Cloud" <==> Contains(Lower(iotClass), "cloud")
    ensures d == "Cloud" || d == "Local"
  {
    if Contains(Lower(iotClass), "cloud") then "Cloud" else "Local"
  }

  function CommunicationMechanism(iotClass: string): (c: string)
    ensures c == "Push" <==> Contains(Lower(iotClass), "push")
    ensures c == "Push" || c == "Polling"
  {
    if Contains(Lower(iotClass), "push") then "Push" else "Polling"
  }

  /** Each valid class reads as its deployment type and communication mechanism, and a class
      the page did not state ("Unknown") reads as Local and Polling. */
  lemma ValidClassesDerive()
    ensures forall c :: c in VALID_IOT_CLASSES ==> DeploymentType(c) + " " + CommunicationMechanism(c) == c
    ensures DeploymentType("Unknown") == "Local" && CommunicationMechanism("Unknown") == "Polling"
  {
    LocalPolling();
    CloudPolling();
    LocalPush();
    CloudPush();
    UnknownClass();
  }

  lemma LocalPolling()
    ensures DeploymentType("Local Polling") == "Local" && CommunicationMechanism("Local Polling") == "Polling"
  {
    assert Lower("Local Polling") == "local polling";
    MissingChar(Lower("Local Polling"), "cloud", 'u');
    MissingChar(Lower("Local Polling"), "push", 'h');
  }

  lemma CloudPolling()
    ensures DeploymentType("Cloud Polling") == "Cloud" && CommunicationMechanism("Cloud Polling") == "Polling"
  {
    assert Lower("Cloud Polling") == "cloud polling";
    assert OccursAt(Lower("Cloud Polling"), 0, "cloud");
    MissingChar(Lower("Cloud Polling"), "push", 'h');
  }

  lemma LocalPush()
    ensures DeploymentType("Local Push") == "Local" && CommunicationMechanism("Local Push") == "Push"
  {
    assert Lower("Local Push") == "local push";
    MissingChar(Lower("Local Push"), "cloud", 'd');
    assert OccursAt(Lower("Local Push"), 6, "push");
  }

  lemma CloudPush()
    ensures DeploymentType("Cloud Push") == "Cloud" && CommunicationMechanism("Cloud Push") == "Push"
  {
    assert Lower("Cloud Push") == "cloud push";
    assert OccursAt(Lower("Cloud Push"), 0, "cloud");
    assert OccursAt(Lower("Cloud Push"), 6, "push");
  }

  lemma UnknownClass()
    ensures DeploymentType("Unknown") == "Local" && CommunicationMechanism("Unknown") == "Polling"
  {
    assert Lower("Unknown") == "unknown";
    MissingChar(Lower("Unknown"), "cloud", 'c');
    MissingChar(Lower("Unknown"), "push", 'p');
  }

  // ---------------------------------------------------------------------------------
  // Pages

  /** `extract_integration_info`: `None` without the sidebar or its intro section. The version
      is read from the stripped intro text, the class from the unstripped one. */
  function ExtractIntegrationInfo(page: Page, api: string): (r: Option<IntegrationInfo>)
    ensures r.Some? <==> page.sidebar.Some? && page.sidebar.value.intro.Some?
    ensures r.Some? ==> r.value.api == api
    ensures r.Some? ==>
      var intro := page.sidebar.value.intro.value;
      && r.value.iotClass == ExtractIotClass(intro)
      && r.value.introductionVersion == ExtractIntroductionVersion(Strip(intro))
    ensures r.Some? ==> r.value.content == (if page.article.Some? then page.article.value else "")
    ensures r.Some? && page.categoryLinks.None? ==> r.value.categories == []
    ensures r.Some? && page.categoryLinks.Some? ==>
      && |r.value.categories| == |page.categoryLinks.value|
      && forall k :: 0 <= k < |r.value.categories| ==> r.value.categories[k] == Strip(page.categoryLinks.value[k])
    ensures r.Some? ==> r.value.deploymentType == DeploymentType(r.value.iotClass)
    ensures r.Some? ==> r.value.communicationMechanism == CommunicationMechanism(r.value.iotClass)
  {
    if page.sidebar.None? || page.sidebar.value.intro.None? then None
    else
      var intro := page.sidebar.value.intro.value;
      var iotClass := ExtractIotClass(intro);
      var info := IntegrationInfo(
        api,
        ExtractIntroductionVersion(Strip(intro)),
        iotClass,
        if page.article.Some? then page.article.value else "",
        if page.categoryLinks.Some? then seq(|page.categoryLinks.value|, k requires 0 <= k < |page.categoryLinks.value| => Strip(page.categoryLinks.value[k])) else [],
        "", "");
      Some(info.(deploymentType := DeploymentType(iotClass), communicationMechanism := CommunicationMechanism(iotClass)))
  }

  /** An HTTP fetch: the response for a URL, or `None` when `requests.get` raises (a
      connection error or a timeout). */
  type Fetcher = string -> Option<Response>

  /** `fetch_integration_info`: the request's exception propagates as `Failure` carrying the
      URL; otherwise a record is read only from a 200 response. */
  function FetchIntegrationInfo(url: string, fetch: Fetcher): (r: Result<Option<IntegrationInfo>, string>)
    ensures r.Failure? <==> fetch(url).None?
    ensures r.Failure? ==> r.error == url
    ensures r.Success? ==>
      (r.value.Some? <==> fetch(url).value.status == 200 && ExtractIntegrationInfo(fetch(url).value.page, url).Some?)
    ensures r.Success? && r.value.Some? ==> r.value.value.api == url
  {
    if fetch(url).None? then Failure(url)
    else if fetch(url).value.status == 200 then Success(ExtractIntegrationInfo(fetch(url).value.page, url))
    else Success(None)
  }

  /** `load_integration_urls`: every listed path under the site URL, count and order kept. */
  function LoadIntegrationUrls(paths: seq<string>): (urls: seq<string>)
    ensures |urls| == |paths|
    ensures forall k :: 0 <= k < |urls| ==> StartsWith(urls[k], SITE_URL) && urls[k][|SITE_URL|..] == paths[k]
  {
    seq(|paths|, k requires 0 <= k < |paths| => SITE_URL + paths[k])
  }

  // ---------------------------------------------------------------------------------
  // The scraping loop and the save filter

  /** The records scraped from the first `n` URLs, skipping pages that did not yield one; the
      first request that raises ends the loop, and the script, with its URL. */
  function ScrapedUpTo(urls: seq<string>, n: nat, fetch: Fetcher): (r: Result<seq<IntegrationInfo>, string>)
    requires n <= |urls|
    ensures r.Success? ==> |r.value| <= n
    ensures r.Success? <==> forall k :: 0 <= k < n ==> fetch(urls[k]).Some?
    ensures r.Failure? ==> exists k :: 0 <= k < n && r.error == urls[k] && fetch(urls[k]).None?
    decreases n
  {
    if n == 0 then Success([])
    else
      match ScrapedUpTo(urls, n - 1, fetch)
      case Failure(e) => Failure(e)
      case Success(rest) =>
        match FetchIntegrationInfo(urls[n - 1], fetch)
        case Failure(e) => Failure(e)
        case Success(info) => Success(rest + (if info.Some? then [info.value] else []))
  }

  /** What the scraping loop of `main` ends with. */
  function Scraped(urls: seq<string>, fetch: Fetcher): (r: Result<seq<IntegrationInfo>, string>)
    ensures r.Success? <==> forall k :: 0 <= k < |urls| ==> fetch(urls[k]).Some?
  {
    ScrapedUpTo(urls, |urls|, fetch)
  }

  /** When no request raises, every scraped record comes from one of the URLs, and every page
      that yields a record is kept. */
  lemma {:induction false} ScrapedMembers(urls: seq<string>, n: nat, fetch: Fetcher)
    requires n <= |urls|
    ensures ScrapedUpTo(urls, n, fetch).Success? ==>
      forall x :: x in ScrapedUpTo(urls, n, fetch).value <==>
        exists k :: 0 <= k < n && FetchIntegrationInfo(urls[k], fetch) == Success(Some(x))
    decreases n
  {
    if n > 0 && ScrapedUpTo(urls, n, fetch).Success? {
      ScrapedMembers(urls, n - 1, fetch);
      var rest := ScrapedUpTo(urls, n - 1, fetch).value;
      forall x | x in ScrapedUpTo(urls, n, fetch).value
        ensures exists k :: 0 <= k < n && FetchIntegrationInfo(urls[k], fetch) == Success(Some(x))
      {
        if x !in rest {
          assert FetchIntegrationInfo(urls[n - 1], fetch) == Success(Some(x));
        }
      }
    }
  }

  method ScrapeIntegrations(urls: seq<string>, fetch: Fetcher) returns (r: Result<seq<IntegrationInfo>, string>)
    ensures r == Scraped(urls, fetch)
  {
    var integrations := [];
    var i := 0;
    while i < |urls|
      invariant 0 <= i <= |urls|
      invariant ScrapedUpTo(urls, i, fetch) == Success(integrations)
    {
      var info := FetchIntegrationInfo(urls[i], fetch);
      if info.Failure? {
        ScrapedStopsAt(urls, i, |urls|, fetch);
        return Failure(info.error);
      }
      ghost var next := integrations + (if info.value.Some? then [info.value.value] else []);
      assert ScrapedUpTo(urls, i + 1, fetch) == Success(next);
      if info.value.Some? {
        integrations := integrations + [info.value.value];
      }
      assert integrations == next;
      i := i + 1;
    }
    r := Success(integrations);
  }

  /** A request that raises at position `i`, after `i` that did not, is the scrape's error. */
  lemma {:induction false} ScrapedStopsAt(urls: seq<string>, i: nat, n: nat, fetch: Fetcher)
    requires i < n <= |urls|
    requires ScrapedUpTo(urls, i, fetch).Success? && fetch(urls[i]).None?
    ensures ScrapedUpTo(urls, n, fetch) == Failure(urls[i])
    decreases n
  {
    if n > i + 1 {
      ScrapedStopsAt(urls, i, n - 1, fetch);
    }
  }

  /** Some category of the page is one of the valid IoT categories. */
  predicate HasValidCategory(categories: seq<string>) {
    exists c :: c in VALID_IOT_CATEGORY && c in categories
  }

  predicate IsValid(x: IntegrationInfo) {
    x.iotClass in VALID_IOT_CLASSES && HasValidCategory(x.categories)
  }

  /** The records among the first `n` that `keep` accepts, in order. */
  function KeptUpTo(xs: seq<IntegrationInfo>, n: nat, keep: IntegrationInfo -> bool): (r: seq<IntegrationInfo>)
    requires n <= |xs|
    ensures |r| <= n
    decreases n
  {
    if n == 0 then []
    else KeptUpTo(xs, n - 1, keep) + (if keep(xs[n - 1]) then [xs[n - 1]] else [])
  }

  /** The integrations `save_integrations` writes, in order. */
  function ValidOnes(xs: seq<IntegrationInfo>): seq<IntegrationInfo> {
    KeptUpTo(xs, |xs|, IsValid)
  }

  /** Exactly the accepted records are kept. */
  lemma {:induction false} KeptUpToMembers(xs: seq<IntegrationInfo>, n: nat, keep: IntegrationInfo -> bool)
    requires n <= |xs|
    ensures forall x :: x in KeptUpTo(xs, n, keep) <==> x in xs[..n] && keep(x)
    decreases n
  {
    if n > 0 {
      KeptUpToMembers(xs, n - 1, keep);
      assert xs[..n] == xs[..n - 1] + [xs[n - 1]];
    }
  }

  method SaveIntegrations(integrations: seq<IntegrationInfo>) returns (saved: seq<IntegrationInfo>)
    ensures saved == ValidOnes(integrations)
  {
    saved := [];
    var i := 0;
    while i < |integrations|
      invariant 0 <= i <= |integrations|
      invariant saved == KeptUpTo(integrations, i, IsValid)
    {
      var integration := integrations[i];
      var validIotClass := integration.iotClass in VALID_IOT_CLASSES;
      var validIotCategory := HasValidCategory(integration.categories);
      if validIotClass && validIotCategory {
        saved := saved + [integration];
      }
      i := i + 1;
    }
  }

  /** The whole script: nothing is saved when a request raises; otherwise every saved
      integration comes from a page fetched with status 200, its class is one of the four
      valid ones and its derived fields spell that class. */
  method GatherIntegrations(paths: seq<string>, fetch: Fetcher) returns (saved: Result<seq<IntegrationInfo>, string>)
    ensures saved.Failure? <==> exists k :: 0 <= k < |paths| && fetch(SITE_URL + paths[k]).None?
    ensures Scraped(LoadIntegrationUrls(paths), fetch).Success? ==>
      saved == Success(ValidOnes(Scraped(LoadIntegrationUrls(paths), fetch).value))
    ensures saved.Success? ==> forall x :: x in saved.value ==>
      && x.iotClass in VALID_IOT_CLASSES
      && x.deploymentType + " " + x.communicationMechanism == x.iotClass
      && exists k :: 0 <= k < |paths| && x.api == SITE_URL + paths[k] && fetch(x.api).Some? && fetch(x.api).value.status == 200
  {
    var urls := LoadIntegrationUrls(paths);
    var integrations := ScrapeIntegrations(urls, fetch);
    if integrations.Failure? {
      var k :| 0 <= k < |urls| && fetch(urls[k]).None?;
      assert urls[k] == SITE_URL + paths[k];
      return Failure(integrations.error);
    }
    var all := SaveIntegrations(integrations.value);
    saved := Success(all);
    KeptUpToMembers(integrations.value, |integrations.value|, IsValid);
    ScrapedMembers(urls, |urls|, fetch);
    assert integrations.value[..|integrations.value|] == integrations.value;
    ValidClassesDerive();
    forall k | 0 <= k < |paths| ensures fetch(SITE_URL + paths[k]).Some? {
      assert urls[k] == SITE_URL + paths[k];
    }
    forall x | x in all
      ensures exists k :: 0 <= k < |paths| && x.api == SITE_URL + paths[k] && fetch(x.api).Some? && fetch(x.api).value.status == 200
    {
      var k :| 0 <= k < |urls| && FetchIntegrationInfo(urls[k], fetch) == Success(Some(x));
      assert urls[k] == SITE_URL + paths[k];
    }
  }
}
