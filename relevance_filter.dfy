/** The relevance pre-filter of prefiltering.py: every issue's title, body and comments are
    scored against the joined API-change search terms, the fields scoring at least the
    threshold are recorded as matches, issues with no match are dropped, and the rest are
    ordered by their best score, highest first.

    The fuzzy scorer (`partial_ratio`) is a parameter returning any score from 0 to 100. */
module RelevanceFilter {
  import opened Wrappers
  import opened Text
  import BatchStore

  const SEARCH_THRESHOLD: int := 60

  const API_CHANGE_SEARCH_TERMS: seq<string> := [
    "api", "breaking", "call", "change", "compatibility", "deprecated", "deprecation",
    "documentation", "endpoint", "feature", "function", "improvement", "integration",
    "interface", "method", "migration", "modification", "parameter", "refactor", "request",
    "response", "schema", "update", "version"]

  type Score = r: real | 0.0 <= r <= 100.0

  /** A fuzzy scorer: the query first, the text scored against it second. */
  type Scorer = (string, string) -> Score

  /** The `type` of a match: the title, the body, or the comment with the given id. */
  datatype MatchType = TitleMatch | BodyMatch | CommentMatch(id: int)

  /** The string stored under `type`: "title", "body" or "comment_" followed by the id. */
  function TypeName(t: MatchType): string {
    match t
    case TitleMatch => "title"
    case BodyMatch => "body"
    case CommentMatch(id) => "comment_" + IntToString(id)
  }

  /** A recorded match: `type`, `matched_term` and `score`. */
  datatype Match = Match(kind: MatchType, matchedTerm: string, score: Score)

  datatype SearchResult = SearchResult(issue: BatchStore.Issue, matches: seq<Match>)

  /** `extractOne` over the one-element list `[text]` returns that element with its score,
      so the "matched term" is the scored text itself, never one of the search terms. */
  function PerformFuzzyMatch(text: string, terms: seq<string>, scorer: Scorer): (Option<string>, Score)
  {
    (Some(text), scorer(Join(terms, " "), text))
  }

  // ---------------------------------------------------------------------------------
  // Matches of one issue

  /** The match one field contributes: a truthy matched text scoring at least the threshold. */
  function FieldMatch(kind: MatchType, text: string, terms: seq<string>, threshold: int, scorer: Scorer): (ms: seq<Match>)
  {
    var score := scorer(Join(terms, " "), text);
    if text != "" && score >= threshold as real then [Match(kind, text, score)] else []
  }

  function CommentKind(c: BatchStore.Comment): MatchType {
    CommentMatch(c.id)
  }

  /** The matches contributed by the first `n` comments, in comment order. */
  function CommentMatchesUpTo(cs: seq<BatchStore.Comment>, n: nat, terms: seq<string>, threshold: int, scorer: Scorer): seq<Match>
    requires n <= |cs|
    decreases n
  {
    if n == 0 then []
    else CommentMatchesUpTo(cs, n - 1, terms, threshold, scorer) + FieldMatch(CommentKind(cs[n - 1]), cs[n - 1].body, terms, threshold, scorer)
  }

  /** The matches contributed by the comments, in comment order. */
  function CommentMatches(cs: seq<BatchStore.Comment>, terms: seq<string>, threshold: int, scorer: Scorer): seq<Match> {
    CommentMatchesUpTo(cs, |cs|, terms, threshold, scorer)
  }

  /** Each comment contributes at most one match. */
  lemma {:induction false} CommentMatchesAtMostOne(cs: seq<BatchStore.Comment>, n: nat, terms: seq<string>, threshold: int, scorer: Scorer)
    requires n <= |cs|
    ensures |CommentMatchesUpTo(cs, n, terms, threshold, scorer)| <= n
    decreases n
  {
    if n > 0 {
      CommentMatchesAtMostOne(cs, n - 1, terms, threshold, scorer);
    }
  }

  /** Title, then body (an absent body scored as ""), then the comments; at most one match
      per field. */
  function IssueMatches(issue: BatchStore.Issue, terms: seq<string>, threshold: int, scorer: Scorer): (ms: seq<Match>)
  {
    FieldMatch(TitleMatch, issue.title, terms, threshold, scorer)
      + FieldMatch(BodyMatch, OrEmpty(issue.body), terms, threshold, scorer)
      + CommentMatches(issue.comments, terms, threshold, scorer)
  }

  /** One `perform_fuzzy_match` call and the check on its result: the match the field
      contributes, if any. */
  method FieldStep(kind: MatchType, text: string, terms: seq<string>, threshold: int, scorer: Scorer)
    returns (found: seq<Match>)
    ensures found == FieldMatch(kind, text, terms, threshold, scorer)
  {
    var (matched, score) := PerformFuzzyMatch(text, terms, scorer);
    if matched.Some? && matched.value != "" && score >= threshold as real {
      found := [Match(kind, matched.value, score)];
    } else {
      found := [];
    }
  }

  method SearchSingleIssue(issue: BatchStore.Issue, terms: seq<string>, threshold: int, scorer: Scorer)
    returns (r: SearchResult)
    ensures r.issue == issue
    ensures r.matches == IssueMatches(issue, terms, threshold, scorer)
  {
    var titleFound := FieldStep(TitleMatch, issue.title, terms, threshold, scorer);
    var bodyFound := FieldStep(BodyMatch, if issue.body.Some? then issue.body.value else "", terms, threshold, scorer);
    var commentsFound := SearchComments(issue.comments, terms, threshold, scorer);
    assert OrEmpty(issue.body) == if issue.body.Some? then issue.body.value else "";
    return SearchResult(issue, titleFound + bodyFound + commentsFound);
  }

  /** The comment loop of `search_single_issue`: one fuzzy match per comment, in order. */
  method SearchComments(cs: seq<BatchStore.Comment>, terms: seq<string>, threshold: int, scorer: Scorer)
    returns (matches: seq<Match>)
    ensures matches == CommentMatches(cs, terms, threshold, scorer)
  {
    matches := [];
    var i := 0;
    while i < |cs|
      invariant 0 <= i <= |cs|
      invariant matches == CommentMatchesUpTo(cs, i, terms, threshold, scorer)
    {
      var comment := cs[i];
      var found := FieldStep(CommentKind(comment), comment.body, terms, threshold, scorer);
      matches := matches + found;
      i := i + 1;
    }
  }

  /** The texts an issue offers, each with the match type it would be recorded under. */
  predicate FieldOf(issue: BatchStore.Issue, kind: MatchType, text: string) {
    || (kind == TitleMatch && text == issue.title)
    || (kind == BodyMatch && text == OrEmpty(issue.body))
    || (exists k :: 0 <= k < |issue.comments| && kind == CommentKind(issue.comments[k]) && text == issue.comments[k].body)
  }

  lemma {:induction false} CommentMatchesSound(cs: seq<BatchStore.Comment>, n: nat, terms: seq<string>, threshold: int, scorer: Scorer)
    requires n <= |cs|
    ensures forall m :: m in CommentMatchesUpTo(cs, n, terms, threshold, scorer) ==>
      m.matchedTerm != "" && m.score >= threshold as real && m.score == scorer(Join(terms, " "), m.matchedTerm) &&
      exists k :: 0 <= k < n && m.kind == CommentKind(cs[k]) && m.matchedTerm == cs[k].body
    decreases n
  {
    if n > 0 {
      CommentMatchesSound(cs, n - 1, terms, threshold, scorer);
    }
  }

  /** Every recorded match is a truthy text of the issue under its own type, scored at least
      the threshold by the scorer. */
  lemma MatchesAreSound(issue: BatchStore.Issue, terms: seq<string>, threshold: int, scorer: Scorer)
    ensures forall m :: m in IssueMatches(issue, terms, threshold, scorer) ==>
      && m.matchedTerm != ""
      && m.score >= threshold as real
      && m.score == scorer(Join(terms, " "), m.matchedTerm)
      && FieldOf(issue, m.kind, m.matchedTerm)
  {
    CommentMatchesSound(issue.comments, |issue.comments|, terms, threshold, scorer);
  }

  /** Distinct match types are stored under distinct strings: comment types carry the
      `comment_` prefix, so they never read as the title or body, and differ by id. */
  lemma TypeNamesDistinct(a: MatchType, b: MatchType)
    ensures TypeName(a) == TypeName(b) <==> a == b
    ensures a.CommentMatch? ==> StartsWith(TypeName(a), "comment_")
  {
    match a {
      case CommentMatch(i) =>
        assert TypeName(a)[..8] == "comment_";
        match b {
          case CommentMatch(j) =>
            CommentNameHasId(i);
            CommentNameHasId(j);
            IntToStringRoundTrip(i);
            IntToStringRoundTrip(j);
          case _ =>
            assert TypeName(a)[0] != TypeName(b)[0];
        }
      case _ =>
        match b {
          case CommentMatch(j) =>
            assert TypeName(a)[0] != TypeName(b)[0];
          case _ =>
        }
    }
  }

  lemma CommentNameHasId(id: int)
    ensures TypeName(CommentMatch(id))[8..] == IntToString(id)
  {
  }

  /** The title is recorded first exactly when it is truthy and reaches the threshold; the body
      match, with an absent body read as "", comes right after it. */
  lemma TitleAndBodyFirst(issue: BatchStore.Issue, terms: seq<string>, threshold: int, scorer: Scorer)
    ensures var ms := IssueMatches(issue, terms, threshold, scorer);
      var q := Join(terms, " ");
      var body := OrEmpty(issue.body);
      var titleHit := issue.title != "" && scorer(q, issue.title) >= threshold as real;
      var bodyHit := body != "" && scorer(q, body) >= threshold as real;
      && (titleHit <==> |ms| > 0 && ms[0].kind == TitleMatch)
      && (titleHit ==> ms[0] == Match(TitleMatch, issue.title, scorer(q, issue.title)))
      && (bodyHit <==> exists m :: m in ms && m.kind == BodyMatch)
      && (bodyHit ==> ms[if titleHit then 1 else 0] == Match(BodyMatch, body, scorer(q, body)))
  {
    var ms := IssueMatches(issue, terms, threshold, scorer);
    var cms := CommentMatches(issue.comments, terms, threshold, scorer);
    CommentMatchesSound(issue.comments, |issue.comments|, terms, threshold, scorer);
    forall m | m in cms ensures m.kind != TitleMatch && m.kind != BodyMatch {
      var k :| 0 <= k < |issue.comments| && m.kind == CommentKind(issue.comments[k]) && m.matchedTerm == issue.comments[k].body;
    }
    var tb := FieldMatch(TitleMatch, issue.title, terms, threshold, scorer) + FieldMatch(BodyMatch, OrEmpty(issue.body), terms, threshold, scorer);
    assert ms == tb + cms;
    if |tb| == 0 && |cms| > 0 {
      assert ms[0] == cms[0];
      assert cms[0] in cms;
    }
    if |tb| == 1 && |ms| > 1 {
      assert ms[1] == cms[0];
      assert cms[0] in cms;
    }
  }

  /** Raising the threshold keeps only the matches that reached the higher threshold. */
  lemma {:induction false} CommentMatchesMonotone(cs: seq<BatchStore.Comment>, n: nat, terms: seq<string>, t1: int, t2: int, scorer: Scorer)
    requires t1 <= t2 && n <= |cs|
    ensures |CommentMatchesUpTo(cs, n, terms, t2, scorer)| <= |CommentMatchesUpTo(cs, n, terms, t1, scorer)|
    ensures forall m :: m in CommentMatchesUpTo(cs, n, terms, t2, scorer) ==> m in CommentMatchesUpTo(cs, n, terms, t1, scorer)
    decreases n
  {
    if n > 0 {
      CommentMatchesMonotone(cs, n - 1, terms, t1, t2, scorer);
    }
  }

  lemma ThresholdMonotone(issue: BatchStore.Issue, terms: seq<string>, t1: int, t2: int, scorer: Scorer)
    requires t1 <= t2
    ensures |IssueMatches(issue, terms, t2, scorer)| <= |IssueMatches(issue, terms, t1, scorer)|
    ensures forall m :: m in IssueMatches(issue, terms, t2, scorer) ==> m in IssueMatches(issue, terms, t1, scorer)
  {
    CommentMatchesMonotone(issue.comments, |issue.comments|, terms, t1, t2, scorer);
  }

  // ---------------------------------------------------------------------------------
  // All issues

  /** `r` is the search result recorded for `issue`: the issue with all its matches, of
      which there is at least one. */
  predicate ResultOf(r: SearchResult, issue: BatchStore.Issue, terms: seq<string>, threshold: int, scorer: Scorer) {
    r.issue == issue && r.matches == IssueMatches(issue, terms, threshold, scorer) && |r.matches| > 0
  }

  /** The search result of every issue among the first `n` with at least one match, in
      issue order. */
  function RetainedUpTo(issues: seq<BatchStore.Issue>, n: nat, terms: seq<string>, threshold: int, scorer: Scorer): (rs: seq<SearchResult>)
    requires n <= |issues|
    ensures |rs| <= n
    decreases n
  {
    if n == 0 then []
    else
      var ms := IssueMatches(issues[n - 1], terms, threshold, scorer);
      RetainedUpTo(issues, n - 1, terms, threshold, scorer) + (if |ms| > 0 then [SearchResult(issues[n - 1], ms)] else [])
  }

  /** The results the loop appends: one per issue with a match, in issue order. */
  function Retained(issues: seq<BatchStore.Issue>, terms: seq<string>, threshold: int, scorer: Scorer): (rs: seq<SearchResult>)
    ensures |rs| <= |issues| && AllMatched(rs)
  {
    RetainedMatched(issues, |issues|, terms, threshold, scorer);
    RetainedUpTo(issues, |issues|, terms, threshold, scorer)
  }

  /** The match lists of the issues, in issue order. */
  function MatchLists(issues: seq<BatchStore.Issue>, terms: seq<string>, threshold: int, scorer: Scorer): (mss: seq<seq<Match>>)
    ensures |mss| == |issues|
  {
    seq(|issues|, i requires 0 <= i < |issues| => IssueMatches(issues[i], terms, threshold, scorer))
  }

  /** The positions among the first `n` lists that are non-empty, in increasing order. */
  function NonEmptyPositions(mss: seq<seq<Match>>, n: nat): (ps: seq<nat>)
    requires n <= |mss|
    ensures forall j :: 0 <= j < |ps| ==> ps[j] < n
    ensures forall i, j :: 0 <= i < j < |ps| ==> ps[i] < ps[j]
    decreases n
  {
    if n == 0 then []
    else NonEmptyPositions(mss, n - 1) + (if |mss[n - 1]| > 0 then [n - 1] else [])
  }

  /** A position is listed exactly when its list is non-empty. */
  lemma {:induction false} NonEmptyPositionsMembers(mss: seq<seq<Match>>, n: nat)
    requires n <= |mss|
    ensures forall k :: 0 <= k < n ==> (k in NonEmptyPositions(mss, n) <==> |mss[k]| > 0)
    decreases n
  {
    if n > 0 {
      NonEmptyPositionsMembers(mss, n - 1);
      assert n - 1 !in NonEmptyPositions(mss, n - 1);
    }
  }

  /** The positions of the issues with at least one match, in increasing order: exactly the
      issues the loop appends a result for. */
  function MatchingPositions(issues: seq<BatchStore.Issue>, terms: seq<string>, threshold: int, scorer: Scorer): (ps: seq<nat>)
    ensures forall j :: 0 <= j < |ps| ==> ps[j] < |issues|
    ensures forall i, j :: 0 <= i < j < |ps| ==> ps[i] < ps[j]
    ensures forall k :: 0 <= k < |issues| ==>
      (k in ps <==> |MatchLists(issues, terms, threshold, scorer)[k]| > 0)
  {
    NonEmptyPositionsMembers(MatchLists(issues, terms, threshold, scorer), |issues|);
    NonEmptyPositions(MatchLists(issues, terms, threshold, scorer), |issues|)
  }

  /** The retained results are the order-preserving filter of the issues: one result per
      matching position, the j-th for the j-th matching issue, so no issue is listed twice
      and no two are merged. */
  lemma {:induction false} RetainedIsFilter(issues: seq<BatchStore.Issue>, n: nat, terms: seq<string>, threshold: int, scorer: Scorer)
    requires n <= |issues|
    ensures var rs := RetainedUpTo(issues, n, terms, threshold, scorer);
      var mss := MatchLists(issues, terms, threshold, scorer);
      var ps := NonEmptyPositions(mss, n);
      && |rs| == |ps|
      && forall j :: 0 <= j < |rs| ==> rs[j] == SearchResult(issues[ps[j]], mss[ps[j]])
  {
    var mss := MatchLists(issues, terms, threshold, scorer);
    RetainedAsPairs(issues, n, terms, threshold, scorer);
    PairsAtPositions(issues, mss, n);
  }

  /** The results recorded for the first `n` issues, given their match lists. */
  function PairsUpTo(issues: seq<BatchStore.Issue>, mss: seq<seq<Match>>, n: nat): seq<SearchResult>
    requires n <= |issues| == |mss|
    decreases n
  {
    if n == 0 then []
    else PairsUpTo(issues, mss, n - 1) + (if |mss[n - 1]| > 0 then [SearchResult(issues[n - 1], mss[n - 1])] else [])
  }

  lemma {:induction false} RetainedAsPairs(issues: seq<BatchStore.Issue>, n: nat, terms: seq<string>, threshold: int, scorer: Scorer)
    requires n <= |issues|
    ensures RetainedUpTo(issues, n, terms, threshold, scorer) == PairsUpTo(issues, MatchLists(issues, terms, threshold, scorer), n)
    decreases n
  {
    if n > 0 {
      RetainedAsPairs(issues, n - 1, terms, threshold, scorer);
      assert MatchLists(issues, terms, threshold, scorer)[n - 1] == IssueMatches(issues[n - 1], terms, threshold, scorer);
    }
  }

  lemma {:induction false} PairsAtPositions(issues: seq<BatchStore.Issue>, mss: seq<seq<Match>>, n: nat)
    requires n <= |issues| == |mss|
    ensures var rs := PairsUpTo(issues, mss, n);
      var ps := NonEmptyPositions(mss, n);
      && |rs| == |ps|
      && forall j :: 0 <= j < |rs| ==> rs[j] == SearchResult(issues[ps[j]], mss[ps[j]])
    decreases n
  {
    if n > 0 {
      PairsAtPositions(issues, mss, n - 1);
    }
  }

  /** Exactly the issues with a match are retained, each with its matches. */
  lemma {:induction false} RetainedMembers(issues: seq<BatchStore.Issue>, n: nat, terms: seq<string>, threshold: int, scorer: Scorer)
    requires n <= |issues|
    ensures forall r :: r in RetainedUpTo(issues, n, terms, threshold, scorer) <==>
      exists k :: 0 <= k < n && ResultOf(r, issues[k], terms, threshold, scorer)
    decreases n
  {
    if n > 0 {
      RetainedMembers(issues, n - 1, terms, threshold, scorer);
      var ms := IssueMatches(issues[n - 1], terms, threshold, scorer);
      var rest := RetainedUpTo(issues, n - 1, terms, threshold, scorer);
      var all := RetainedUpTo(issues, n, terms, threshold, scorer);
      var extra := if |ms| > 0 then [SearchResult(issues[n - 1], ms)] else [];
      assert all == rest + extra;
      forall r | r in all ensures exists k :: 0 <= k < n && ResultOf(r, issues[k], terms, threshold, scorer) {
        if r !in rest {
          assert r in extra;
          assert ResultOf(r, issues[n - 1], terms, threshold, scorer);
        }
      }
      forall r | exists k :: 0 <= k < n && ResultOf(r, issues[k], terms, threshold, scorer) ensures r in all {
        var k :| 0 <= k < n && ResultOf(r, issues[k], terms, threshold, scorer);
        if k == n - 1 {
          assert r == SearchResult(issues[n - 1], ms);
          assert r in extra;
        } else {
          assert r in rest;
        }
      }
    }
  }

  lemma {:induction false} RetainedMatched(issues: seq<BatchStore.Issue>, n: nat, terms: seq<string>, threshold: int, scorer: Scorer)
    requires n <= |issues|
    ensures AllMatched(RetainedUpTo(issues, n, terms, threshold, scorer))
    decreases n
  {
    if n > 0 {
      RetainedMatched(issues, n - 1, terms, threshold, scorer);
      var rest := RetainedUpTo(issues, n - 1, terms, threshold, scorer);
      var all := RetainedUpTo(issues, n, terms, threshold, scorer);
      forall k | 0 <= k < |all| ensures |all[k].matches| > 0 {
        if k < |rest| {
          assert all[k] == rest[k];
        }
      }
    }
  }

  /** With the scores fixed, a higher threshold never retains more issues. */
  lemma {:induction false} RetainedMonotone(issues: seq<BatchStore.Issue>, n: nat, terms: seq<string>, t1: int, t2: int, scorer: Scorer)
    requires n <= |issues| && t1 <= t2
    ensures |RetainedUpTo(issues, n, terms, t2, scorer)| <= |RetainedUpTo(issues, n, terms, t1, scorer)|
    decreases n
  {
    if n > 0 {
      RetainedMonotone(issues, n - 1, terms, t1, t2, scorer);
      ThresholdMonotone(issues[n - 1], terms, t1, t2, scorer);
    }
  }

  /** Nor does it retain an issue the lower threshold dropped. */
  lemma RetainedSubset(issues: seq<BatchStore.Issue>, terms: seq<string>, t1: int, t2: int, scorer: Scorer)
    requires t1 <= t2
    ensures forall r :: r in Retained(issues, terms, t2, scorer) ==>
      SearchResult(r.issue, IssueMatches(r.issue, terms, t1, scorer)) in Retained(issues, terms, t1, scorer)
  {
    RetainedMembers(issues, |issues|, terms, t1, scorer);
    RetainedMembers(issues, |issues|, terms, t2, scorer);
    forall r | r in Retained(issues, terms, t2, scorer)
      ensures SearchResult(r.issue, IssueMatches(r.issue, terms, t1, scorer)) in Retained(issues, terms, t1, scorer)
    {
      var k :| 0 <= k < |issues| && ResultOf(r, issues[k], terms, t2, scorer);
      StillRetained(r, issues[k], terms, t1, t2, scorer);
    }
  }

  lemma StillRetained(r: SearchResult, issue: BatchStore.Issue, terms: seq<string>, t1: int, t2: int, scorer: Scorer)
    requires t1 <= t2 && ResultOf(r, issue, terms, t2, scorer)
    ensures ResultOf(SearchResult(r.issue, IssueMatches(r.issue, terms, t1, scorer)), issue, terms, t1, scorer)
  {
    ThresholdMonotone(issue, terms, t1, t2, scorer);
  }

  // ---------------------------------------------------------------------------------
  // Ordering by best score

  /** `max(match["score"] for match in matches)`; Python raises on an empty list. */
  function BestScore(ms: seq<Match>): real
    requires |ms| > 0
    decreases |ms|
  {
    if |ms| == 1 then ms[0].score
    else
      var rest := BestScore(ms[1..]);
      if ms[0].score >= rest then ms[0].score else rest
  }

  lemma {:induction false} BestScoreIsMax(ms: seq<Match>)
    requires |ms| > 0
    ensures forall m :: m in ms ==> m.score <= BestScore(ms)
    ensures exists m :: m in ms && m.score == BestScore(ms)
    decreases |ms|
  {
    if |ms| > 1 {
      BestScoreIsMax(ms[1..]);
      assert forall m :: m in ms ==> m == ms[0] || m in ms[1..];
      var m :| m in ms[1..] && m.score == BestScore(ms[1..]);
      assert m in ms;
    } else {
      assert ms[0] in ms;
    }
  }

  predicate AllMatched(rs: seq<SearchResult>) {
    forall k :: 0 <= k < |rs| ==> |rs[k].matches| > 0
  }

  function Key(r: SearchResult): real
    requires |r.matches| > 0
  {
    BestScore(r.matches)
  }

  /** Non-increasing in the best score. */
  predicate Descending(rs: seq<SearchResult>)
    requires AllMatched(rs)
  {
    forall i, j :: 0 <= i < j < |rs| ==> Key(rs[i]) >= Key(rs[j])
  }

  /** `x` placed before the first element whose key does not exceed its own. */
  function Insert(x: SearchResult, s: seq<SearchResult>): (t: seq<SearchResult>)
    requires |x.matches| > 0 && AllMatched(s)
    ensures |t| == |s| + 1 && AllMatched(t)
    decreases |s|
  {
    if s == [] || Key(s[0]) <= Key(x) then [x] + s
    else [s[0]] + Insert(x, s[1..])
  }

  /** Python's stable `sorted(..., key=best score, reverse=True)`. */
  function SortByBestScore(rs: seq<SearchResult>): (t: seq<SearchResult>)
    requires AllMatched(rs)
    ensures |t| == |rs| && AllMatched(t)
    decreases |rs|
  {
    if rs == [] then [] else Insert(rs[0], SortByBestScore(rs[1..]))
  }

  lemma {:induction false} InsertPermutes(x: SearchResult, s: seq<SearchResult>)
    requires |x.matches| > 0 && AllMatched(s)
    ensures multiset(Insert(x, s)) == multiset(s) + multiset{x}
    decreases |s|
  {
    if s != [] && Key(s[0]) > Key(x) {
      InsertPermutes(x, s[1..]);
      assert s == [s[0]] + s[1..];
    }
  }

  /** The sort is a permutation of its input. */
  lemma {:induction false} SortPermutes(rs: seq<SearchResult>)
    requires AllMatched(rs)
    ensures multiset(SortByBestScore(rs)) == multiset(rs)
    decreases |rs|
  {
    if rs != [] {
      SortPermutes(rs[1..]);
      InsertPermutes(rs[0], SortByBestScore(rs[1..]));
      assert rs == [rs[0]] + rs[1..];
    }
  }

  /** Inserting under a bound keeps every key under it. */
  lemma {:induction false} InsertBounded(x: SearchResult, s: seq<SearchResult>, b: real)
    requires |x.matches| > 0 && AllMatched(s) && Key(x) <= b
    requires forall k :: 0 <= k < |s| ==> Key(s[k]) <= b
    ensures forall k :: 0 <= k < |Insert(x, s)| ==> Key(Insert(x, s)[k]) <= b
    decreases |s|
  {
    if s != [] && Key(s[0]) > Key(x) {
      InsertBounded(x, s[1..], b);
    }
  }

  lemma {:induction false} InsertDescending(x: SearchResult, s: seq<SearchResult>)
    requires |x.matches| > 0 && AllMatched(s) && Descending(s)
    ensures Descending(Insert(x, s))
    decreases |s|
  {
    if s != [] && Key(s[0]) > Key(x) {
      InsertDescending(x, s[1..]);
      InsertBounded(x, s[1..], Key(s[0]));
    }
  }

  lemma {:induction false} SortDescending(rs: seq<SearchResult>)
    requires AllMatched(rs)
    ensures Descending(SortByBestScore(rs))
    decreases |rs|
  {
    if rs != [] {
      SortDescending(rs[1..]);
      InsertDescending(rs[0], SortByBestScore(rs[1..]));
    }
  }

  /** The results whose best score is `k`, in their order. */
  function WithKey(rs: seq<SearchResult>, k: real): seq<SearchResult>
    requires AllMatched(rs)
    decreases |rs|
  {
    if rs == [] then []
    else (if Key(rs[0]) == k then [rs[0]] else []) + WithKey(rs[1..], k)
  }

  lemma {:induction false} InsertStable(x: SearchResult, s: seq<SearchResult>, k: real)
    requires |x.matches| > 0 && AllMatched(s) && Descending(s)
    ensures WithKey(Insert(x, s), k) == WithKey([x] + s, k)
    decreases |s|
  {
    if s != [] && Key(s[0]) > Key(x) {
      var u := Insert(x, s[1..]);
      InsertStable(x, s[1..], k);
      var hx := if Key(x) == k then [x] else [];
      var hs := if Key(s[0]) == k then [s[0]] else [];
      assert ([s[0]] + u)[1..] == u;
      assert WithKey([s[0]] + u, k) == hs + WithKey(u, k);
      assert ([x] + s[1..])[1..] == s[1..];
      assert WithKey(u, k) == hx + WithKey(s[1..], k);
      assert ([x] + s)[1..] == s;
      assert WithKey([x] + s, k) == hx + WithKey(s, k);
      assert WithKey(s, k) == hs + WithKey(s[1..], k);
      assert hs == [] || hx == [];
    }
  }

  /** Stability: among results with equal best scores the input order is kept. */
  lemma {:induction false} SortStable(rs: seq<SearchResult>, k: real)
    requires AllMatched(rs)
    ensures WithKey(SortByBestScore(rs), k) == WithKey(rs, k)
    decreases |rs|
  {
    if rs != [] {
      SortDescending(rs[1..]);
      InsertStable(rs[0], SortByBestScore(rs[1..]), k);
      SortStable(rs[1..], k);
      assert ([rs[0]] + SortByBestScore(rs[1..]))[1..] == SortByBestScore(rs[1..]);
    }
  }

  method SearchIssuesAndComments(repository: BatchStore.Repository, terms: seq<string>, threshold: int, scorer: Scorer)
    returns (results: seq<SearchResult>)
    ensures AllMatched(Retained(repository.issues, terms, threshold, scorer))
    ensures results == SortByBestScore(Retained(repository.issues, terms, threshold, scorer))
  {
    var retained: seq<SearchResult> := [];
    var i := 0;
    while i < |repository.issues|
      invariant 0 <= i <= |repository.issues|
      invariant retained == RetainedUpTo(repository.issues, i, terms, threshold, scorer)
    {
      var issueResult := SearchSingleIssue(repository.issues[i], terms, threshold, scorer);
      RetainedStep(repository.issues, i, terms, threshold, scorer);
      if |issueResult.matches| > 0 {
        retained := retained + [issueResult];
      }
      i := i + 1;
    }
    assert retained == Retained(repository.issues, terms, threshold, scorer);
    results := SortByBestScore(retained);
  }

  lemma RetainedStep(issues: seq<BatchStore.Issue>, i: nat, terms: seq<string>, threshold: int, scorer: Scorer)
    requires i < |issues|
    ensures var ms := IssueMatches(issues[i], terms, threshold, scorer);
      RetainedUpTo(issues, i + 1, terms, threshold, scorer)
        == RetainedUpTo(issues, i, terms, threshold, scorer) + (if |ms| > 0 then [SearchResult(issues[i], ms)] else [])
  {
  }

  /** What the search promises: exactly the issues with a match, each with its matches,
      non-increasing in best score, input order kept among equal best scores. */
  lemma SearchSpec(issues: seq<BatchStore.Issue>, terms: seq<string>, threshold: int, scorer: Scorer, k: real)
    ensures var rs := Retained(issues, terms, threshold, scorer);
      AllMatched(rs) &&
      var out := SortByBestScore(rs);
      && multiset(out) == multiset(rs)
      && Descending(out)
      && WithKey(out, k) == WithKey(rs, k)
      && (forall r :: r in out <==> exists j :: 0 <= j < |issues| && ResultOf(r, issues[j], terms, threshold, scorer))
      && |out| == |MatchingPositions(issues, terms, threshold, scorer)|
      && (forall j :: 0 <= j < |rs| ==>
            var p := MatchingPositions(issues, terms, threshold, scorer)[j];
            rs[j] == SearchResult(issues[p], MatchLists(issues, terms, threshold, scorer)[p]))
  {
    RetainedIsFilter(issues, |issues|, terms, threshold, scorer);
    var rs := Retained(issues, terms, threshold, scorer);
    RetainedMembers(issues, |issues|, terms, threshold, scorer);
    RetainedMatched(issues, |issues|, terms, threshold, scorer);
    SortDescending(rs);
    SortStable(rs, k);
    SortPermutes(rs);
    var out := SortByBestScore(rs);
    forall r ensures r in out <==> r in rs {
      assert r in out <==> r in multiset(out);
      assert r in rs <==> r in multiset(rs);
    }
  }

  /** `load_issues_from_directory`: the same sorted concatenation as the batch loader, under
      an empty repository name; `None` is a directory that does not exist, which `os.listdir`
      reports with `FileNotFoundError`. */
  method LoadIssuesFromDirectory(dir: Option<BatchStore.Directory>) returns (r: Result<BatchStore.Repository, BatchStore.Error>)
    ensures dir.None? ==> r == Failure(BatchStore.DirectoryMissing)
    ensures r.Success? <==> dir.Some? && BatchStore.Readable(dir.value)
    ensures r.Success? ==>
      && BatchStore.Loadable(dir.value, SortedStrings(dir.value.Keys))
      && r.value == BatchStore.Repository("", BatchStore.Concat(dir.value, SortedStrings(dir.value.Keys)))
    ensures dir.Some? && r.Failure? ==> r.error == BatchStore.MalformedBatch
  {
    if dir.None? {
      return Failure(BatchStore.DirectoryMissing);
    }
    r := BatchStore.LoadAllIssues("", dir.value);
  }
}
