/** The corpus store of data-gathering.py (the copies under scripts/ and data_processing/
    are identical): issues fetched from the tracker are written as numbered JSON batch
    files, an issue number already present in some batch is never fetched again, and the
    whole corpus is rebuilt by concatenating the batches in file-name order.

    The batch directory is a map from file name to file; the order in which `os.listdir`
    lists it is left open, which the methods model by taking the remaining names in an
    arbitrary order. */
module BatchStore {
  import opened Wrappers
  import opened Text

  /** Largest number of issues one run collects. */
  const BATCH_SIZE: nat := 100

  datatype Comment = Comment(id: int, body: string, user: string)

  datatype Issue = Issue(
    number: int,
    title: string,
    body: Option<string>,
    state: string,
    comments: seq<Comment>,
    tags: seq<string>)

  /** The document held by one batch file. */
  datatype Repository = Repository(name: string, issues: seq<Issue>)

  /** A directory entry: a batch document, or content that decoding rejects
      (not JSON, no `issues` key, an issue without `number`). */
  datatype File = BatchFile(repo: Repository) | Unparseable

  type Directory = map<string, File>

  /** `DirectoryMissing` is the `FileNotFoundError` of listing a directory that does not exist. */
  datatype Error = MissingToken | MalformedBatch | BadBatchName | NoBatchFiles | FetchFailed | DirectoryMissing

  /** An issue as the tracker lists it, with whether building its record (fetching its
      comments and labels) succeeds. */
  datatype SourceIssue = SourceIssue(issue: Issue, fetchable: bool)

  predicate IsJson(name: string) {
    EndsWith(name, ".json")
  }

  /** The tracker client needs a token that is present and non-empty. */
  function InitializeGithubClient(token: Option<string>): (r: Result<string, Error>)
    ensures r.Success? <==> token.Some? && token.value != ""
    ensures r.Failure? ==> r.error == MissingToken
  {
    if token.None? || token.value == "" then Failure(MissingToken) else Success(token.value)
  }

  // ---------------------------------------------------------------------------------
  // Stored issue numbers

  function NumbersOf(issues: seq<Issue>): set<int> {
    set k | 0 <= k < |issues| :: issues[k].number
  }

  /** Every `.json` entry among `names` decodes as a batch. */
  ghost predicate ReadableAmong(dir: Directory, names: set<string>) {
    forall f :: f in names && f in dir && IsJson(f) ==> dir[f].BatchFile?
  }

  ghost predicate Readable(dir: Directory) {
    ReadableAmong(dir, dir.Keys)
  }

  /** The issue numbers held by the `.json` batches among `names`. */
  ghost function NumbersIn(dir: Directory, names: set<string>): set<int> {
    set f, n | f in names && f in dir && IsJson(f) && dir[f].BatchFile? && n in NumbersOf(dir[f].repo.issues) :: n
  }

  /** The union of `number` over the issues of every `.json` file; other files do not count. */
  ghost function StoredNumbers(dir: Directory): set<int> {
    NumbersIn(dir, dir.Keys)
  }

  lemma NumbersInAdd(dir: Directory, names: set<string>, f: string)
    ensures NumbersIn(dir, names + {f}) ==
      NumbersIn(dir, names) + (if f in dir && IsJson(f) && dir[f].BatchFile? then NumbersOf(dir[f].repo.issues) else {})
  {
  }

  method GetStoredIssueNumbers(dir: Directory) returns (r: Result<set<int>, Error>)
    ensures r.Success? <==> Readable(dir)
    ensures r.Success? ==> r.value == StoredNumbers(dir)
    ensures r.Failure? ==> r.error == MalformedBatch
  {
    var stored: set<int> := {};
    var remaining := dir.Keys;
    while remaining != {}
      invariant remaining <= dir.Keys
      invariant ReadableAmong(dir, dir.Keys - remaining)
      invariant stored == NumbersIn(dir, dir.Keys - remaining)
      decreases remaining
    {
      var f :| f in remaining;
      NumbersInAdd(dir, dir.Keys - remaining, f);
      assert dir.Keys - (remaining - {f}) == (dir.Keys - remaining) + {f};
      remaining := remaining - {f};
      if IsJson(f) {
        match dir[f]
        case Unparseable =>
          return Failure(MalformedBatch);
        case BatchFile(repo) =>
          stored := stored + NumbersOf(repo.issues);
      }
    }
    assert dir.Keys - remaining == dir.Keys;
    return Success(stored);
  }

  // ---------------------------------------------------------------------------------
  // Batch file names

  /** The name under which batch `n` is written. */
  function BatchFileName(n: int): string {
    "batch_" + IntToString(n) + ".json"
  }

  /** `int(name.split("_")[1].split(".")[0])`, or `None` where that raises. */
  function Suffix(name: string): Option<int> {
    var parts := Split(name, "_");
    if |parts| < 2 then None else ParseInt(Split(parts[1], ".")[0])
  }

  /** Every `.json` name carries a numeric suffix. */
  ghost predicate NumberedNames(dir: Directory) {
    forall f :: f in dir && IsJson(f) ==> Suffix(f).Some?
  }

  ghost predicate HasJson(dir: Directory) {
    exists f :: f in dir && IsJson(f)
  }

  /** `n` is one more than the largest suffix of a `.json` name. */
  ghost predicate IsNextFileNumber(dir: Directory, n: int) {
    && (forall f :: f in dir && IsJson(f) ==> Suffix(f).Some? && Suffix(f).value < n)
    && (exists f :: f in dir && IsJson(f) && Suffix(f) == Some(n - 1))
  }

  /** The largest element of a non-empty list (Python's `max`). */
  function Max(s: seq<int>): (m: int)
    requires |s| > 0
    ensures m in s && forall x :: x in s ==> x <= m
  {
    if |s| == 1 then s[0]
    else
      var rest := Max(s[1..]);
      assert forall x :: x in s ==> x == s[0] || x in s[1..];
      if s[0] >= rest then s[0] else rest
  }

  method GetFileNumber(dir: Directory) returns (r: Result<int, Error>)
    ensures r.Success? <==> NumberedNames(dir) && HasJson(dir)
    ensures r.Success? ==> IsNextFileNumber(dir, r.value)
    ensures r.Failure? ==> r.error == (if NumberedNames(dir) then NoBatchFiles else BadBatchName)
  {
    var storedNumber: seq<int> := [];
    var remaining := dir.Keys;
    while remaining != {}
      invariant remaining <= dir.Keys
      invariant forall f :: f in dir && f !in remaining && IsJson(f) ==> Suffix(f).Some? && Suffix(f).value in storedNumber
      invariant forall x :: x in storedNumber ==> exists f :: f in dir && f !in remaining && IsJson(f) && Suffix(f) == Some(x)
      decreases remaining
    {
      var f :| f in remaining;
      remaining := remaining - {f};
      if IsJson(f) {
        var n := Suffix(f);
        if n.None? {
          return Failure(BadBatchName);
        }
        storedNumber := storedNumber + [n.value];
      }
    }
    if |storedNumber| == 0 {
      return Failure(NoBatchFiles);
    }
    var m := Max(storedNumber);
    return Success(m + 1);
  }

  /** The next file number is determined by the directory. */
  lemma NextFileNumberUnique(dir: Directory, n: int, m: int)
    requires IsNextFileNumber(dir, n) && IsNextFileNumber(dir, m)
    ensures n == m
  {
    var f :| f in dir && IsJson(f) && Suffix(f) == Some(n - 1);
    var g :| g in dir && IsJson(g) && Suffix(g) == Some(m - 1);
    assert n - 1 < m && m - 1 < n;
  }

  /** A next file number exists exactly when every `.json` name is numbered and there is one. */
  lemma {:induction false} NextFileNumberExists(dir: Directory)
    requires NumberedNames(dir) && HasJson(dir)
    ensures exists n :: IsNextFileNumber(dir, n)
  {
    var jsons := set f | f in dir && IsJson(f);
    var g :| g in dir && IsJson(g);
    assert g in jsons;
    var best := LargestSuffix(dir, jsons);
    assert IsNextFileNumber(dir, Suffix(best).value + 1);
  }

  lemma {:induction false} LargestSuffix(dir: Directory, names: set<string>) returns (best: string)
    requires names != {}
    requires forall f :: f in names ==> f in dir && IsJson(f) && Suffix(f).Some?
    ensures best in names
    ensures forall f :: f in names ==> Suffix(f).value <= Suffix(best).value
    decreases |names|
  {
    var g :| g in names;
    if names - {g} == {} {
      assert names == {g};
      best := g;
    } else {
      var b := LargestSuffix(dir, names - {g});
      best := if Suffix(g).value >= Suffix(b).value then g else b;
    }
  }

  ghost function NextFileNumber(dir: Directory): (n: int)
    requires NumberedNames(dir) && HasJson(dir)
    ensures IsNextFileNumber(dir, n)
  {
    NextFileNumberExists(dir);
    var n :| IsNextFileNumber(dir, n);
    n
  }

  /** The suffix of `stem_mid.ext` is `mid` read as an integer, when only the one `_`
      and no `.` before the extension occur. */
  lemma SuffixOfName(stem: string, mid: string, ext: string)
    requires forall j :: 0 <= j < |stem| ==> stem[j] != '_'
    requires forall j :: 0 <= j < |mid| ==> mid[j] != '_' && mid[j] != '.'
    requires forall j :: 0 <= j < |ext| ==> ext[j] != '_'
    ensures Suffix(stem + "_" + mid + "." + ext) == ParseInt(mid)
  {
    var rest := mid + "." + ext;
    assert stem + "_" + mid + "." + ext == stem + "_" + rest;
    NoUnderscoreAfter(mid, ext);
    SplitAtOnly(stem, rest, '_');
    HeadBeforeDot(mid, ext);
  }

  lemma NoUnderscoreAfter(mid: string, ext: string)
    requires forall j :: 0 <= j < |mid| ==> mid[j] != '_'
    requires forall j :: 0 <= j < |ext| ==> ext[j] != '_'
    ensures forall j :: 0 <= j < |mid + "." + ext| ==> (mid + "." + ext)[j] != '_'
  {
    var rest := mid + "." + ext;
    forall j | 0 <= j < |rest| ensures rest[j] != '_' {
      if j > |mid| {
        assert rest[j] == ext[j - |mid| - 1];
      }
    }
  }

  /** Splitting at the only occurrence of `c` gives the two sides. */
  lemma SplitAtOnly(a: string, b: string, c: char)
    requires forall j :: 0 <= j < |a| ==> a[j] != c
    requires forall j :: 0 <= j < |b| ==> b[j] != c
    ensures Split(a + [c] + b, [c]) == [a, b]
  {
    var s := a + [c] + b;
    assert s[|a|] == c;
    FindChar(s, c, |a|);
    assert s[|a| + 1..] == b;
    assert s[..|a|] == a;
    FindCharAbsent(b, c);
    SplitHead(s, [c]);
    SplitHead(b, [c]);
  }

  /** The first part of a split at `.` is everything before the first dot. */
  lemma HeadBeforeDot(mid: string, ext: string)
    requires forall j :: 0 <= j < |mid| ==> mid[j] != '.'
    ensures Split(mid + "." + ext, ".")[0] == mid
  {
    var rest := mid + "." + ext;
    assert rest[|mid|] == '.';
    FindChar(rest, '.', |mid|);
    SplitHead(rest, ".");
    assert rest[..|mid|] == mid;
  }

  /** Round trip: the name written for batch `n` is a `.json` name whose suffix parses back to `n`. */
  lemma BatchFileNameRoundTrip(n: int)
    ensures IsJson(BatchFileName(n))
    ensures Suffix(BatchFileName(n)) == Some(n)
  {
    var t := IntToString(n);
    IntToStringChars(n);
    assert BatchFileName(n) == "batch" + "_" + t + "." + "json";
    SuffixOfName("batch", t, "json");
    IntToStringRoundTrip(n);
  }

  /** A name without `_` has no suffix (the index error), so `GetFileNumber` fails on a
      directory holding such a `.json` name. */
  lemma NameWithoutUnderscore(name: string)
    requires forall j :: 0 <= j < |name| ==> name[j] != '_'
    ensures Suffix(name) == None
  {
    FindCharAbsent(name, '_');
    assert !Contains(name, "_");
  }

  /** Nor does a name `stem_mid.ext` whose segment `mid` is not an integer (the value error). */
  lemma NameWithNonNumericSuffix(stem: string, mid: string, ext: string)
    requires forall j :: 0 <= j < |stem| ==> stem[j] != '_'
    requires forall j :: 0 <= j < |mid| ==> mid[j] != '_' && mid[j] != '.'
    requires forall j :: 0 <= j < |ext| ==> ext[j] != '_'
    requires ParseInt(mid).None?
    ensures Suffix(stem + "_" + mid + "." + ext) == None
  {
    SuffixOfName(stem, mid, ext);
  }

  /** The name chosen for the new batch is not already taken. */
  lemma NewBatchNameIsFree(dir: Directory, n: int)
    requires IsNextFileNumber(dir, n)
    ensures BatchFileName(n) !in dir
  {
    BatchFileNameRoundTrip(n);
  }

  /** `store_issue_batch`: the directory after writing batch `n`. */
  function StoreIssueBatch(dir: Directory, repo: Repository, n: int): (d: Directory)
    ensures d.Keys == dir.Keys + {BatchFileName(n)}
    ensures d[BatchFileName(n)] == BatchFile(repo)
    ensures forall f :: f in dir && f != BatchFileName(n) ==> d[f] == dir[f]
  {
    dir[BatchFileName(n) := BatchFile(repo)]
  }

  /** Writing a batch under a free `.json` name adds exactly its issue numbers to the stored set. */
  lemma StoreGrowsStoredNumbers(dir: Directory, repo: Repository, n: int)
    requires BatchFileName(n) !in dir
    ensures StoredNumbers(StoreIssueBatch(dir, repo, n)) == StoredNumbers(dir) + NumbersOf(repo.issues)
    ensures Readable(dir) ==> Readable(StoreIssueBatch(dir, repo, n))
  {
    var name := BatchFileName(n);
    var d := StoreIssueBatch(dir, repo, n);
    BatchFileNameRoundTrip(n);
    NumbersInAdd(d, dir.Keys, name);
    assert d.Keys == dir.Keys + {name};
    assert NumbersIn(d, dir.Keys) == NumbersIn(dir, dir.Keys);
  }

  // ---------------------------------------------------------------------------------
  // Collecting one batch

  /** The source issues among the first `n` whose numbers are not stored yet, in source order. */
  function FreshUpTo(source: seq<SourceIssue>, n: nat, stored: set<int>): (r: seq<SourceIssue>)
    requires n <= |source|
    ensures |r| <= n
    decreases n
  {
    if n == 0 then []
    else FreshUpTo(source, n - 1, stored) + (if source[n - 1].issue.number in stored then [] else [source[n - 1]])
  }

  function Fresh(source: seq<SourceIssue>, stored: set<int>): seq<SourceIssue> {
    FreshUpTo(source, |source|, stored)
  }

  /** Exactly the unstored issues are fresh. */
  lemma {:induction false} FreshMembers(source: seq<SourceIssue>, n: nat, stored: set<int>)
    requires n <= |source|
    ensures forall s :: s in FreshUpTo(source, n, stored) <==> s in source[..n] && s.issue.number !in stored
    decreases n
  {
    if n > 0 {
      FreshMembers(source, n - 1, stored);
      assert source[..n] == source[..n - 1] + [source[n - 1]];
    }
  }

  /** The fresh issues of a shorter prefix begin the fresh issues of a longer one. */
  lemma {:induction false} FreshPrefix(source: seq<SourceIssue>, m: nat, n: nat, stored: set<int>)
    requires m <= n <= |source|
    ensures |FreshUpTo(source, m, stored)| <= |FreshUpTo(source, n, stored)|
    ensures FreshUpTo(source, n, stored)[..|FreshUpTo(source, m, stored)|] == FreshUpTo(source, m, stored)
    decreases n
  {
    if m < n {
      FreshPrefix(source, m, n - 1, stored);
      var small := FreshUpTo(source, m, stored);
      var mid := FreshUpTo(source, n - 1, stored);
      assert FreshUpTo(source, n, stored)[..|mid|] == mid;
      assert mid[..|small|] == small;
    }
  }

  /** The issues one run tries to collect: the first `BATCH_SIZE` fresh ones. */
  function Candidates(source: seq<SourceIssue>, stored: set<int>): seq<SourceIssue> {
    var f := Fresh(source, stored);
    if |f| <= BATCH_SIZE then f else f[..BATCH_SIZE]
  }

  function IssuesOf(c: seq<SourceIssue>): seq<Issue> {
    seq(|c|, k requires 0 <= k < |c| => c[k].issue)
  }

  predicate AllFetchable(c: seq<SourceIssue>) {
    forall k :: 0 <= k < |c| ==> c[k].fetchable
  }

  lemma IssuesOfAppend(c: seq<SourceIssue>, s: SourceIssue)
    ensures IssuesOf(c + [s]) == IssuesOf(c) + [s.issue]
  {
  }

  /** Once the fresh issues of a prefix fill a batch, they are the candidates. */
  lemma CandidatesFilled(source: seq<SourceIssue>, i: nat, stored: set<int>)
    requires i <= |source| && |FreshUpTo(source, i, stored)| == BATCH_SIZE
    ensures Candidates(source, stored) == FreshUpTo(source, i, stored)
  {
    FreshPrefix(source, i, |source|, stored);
  }

  /** A fresh issue met before the batch is full is the next candidate. */
  lemma CandidatesNext(source: seq<SourceIssue>, i: nat, stored: set<int>)
    requires i < |source| && source[i].issue.number !in stored
    requires |FreshUpTo(source, i, stored)| < BATCH_SIZE
    ensures var k := |FreshUpTo(source, i, stored)|;
      k < |Candidates(source, stored)| && Candidates(source, stored)[k] == source[i]
  {
    var head := FreshUpTo(source, i, stored);
    var k := |head|;
    assert FreshUpTo(source, i + 1, stored) == head + [source[i]];
    FreshAt(source, i + 1, |source|, stored, k);
    var f := Fresh(source, stored);
    assert f[k] == source[i];
    if |f| > BATCH_SIZE {
      assert Candidates(source, stored) == f[..BATCH_SIZE];
    }
  }

  /** A position among the fresh issues of a prefix holds the same issue in every longer prefix. */
  lemma FreshAt(source: seq<SourceIssue>, m: nat, n: nat, stored: set<int>, k: nat)
    requires m <= n <= |source| && k < |FreshUpTo(source, m, stored)|
    ensures k < |FreshUpTo(source, n, stored)|
    ensures FreshUpTo(source, n, stored)[k] == FreshUpTo(source, m, stored)[k]
  {
    FreshPrefix(source, m, n, stored);
    var long := FreshUpTo(source, n, stored);
    assert long[..|FreshUpTo(source, m, stored)|][k] == long[k];
  }

  /** The `for issue in issues` loop of `fetch_and_store_issues`: skip stored numbers,
      build each other issue, stop once `BATCH_SIZE` are collected. Building an issue
      that fails aborts the whole collection. */
  method CollectBatch(source: seq<SourceIssue>, stored: set<int>) returns (r: Result<seq<Issue>, Error>)
    ensures r.Success? <==> AllFetchable(Candidates(source, stored))
    ensures r.Success? ==> r.value == IssuesOf(Candidates(source, stored))
    ensures r.Failure? ==> r.error == FetchFailed
  {
    var issues: seq<Issue> := [];
    var i := 0;
    while i < |source| && |issues| < BATCH_SIZE
      invariant 0 <= i <= |source|
      invariant AllFetchable(FreshUpTo(source, i, stored))
      invariant issues == IssuesOf(FreshUpTo(source, i, stored))
      invariant |issues| <= BATCH_SIZE
    {
      var s := source[i];
      if s.issue.number !in stored {
        if !s.fetchable {
          CandidatesNext(source, i, stored);
          assert !Candidates(source, stored)[|issues|].fetchable;
          return Failure(FetchFailed);
        }
        IssuesOfAppend(FreshUpTo(source, i, stored), s);
        issues := issues + [s.issue];
      }
      i := i + 1;
    }
    if |issues| == BATCH_SIZE {
      CandidatesFilled(source, i, stored);
    }
    return Success(issues);
  }

  // ---------------------------------------------------------------------------------
  // One run of the script

  /** The directory and the error, if any, after one run of `fetch_and_store_issues`
      as wrapped by `main`, which reports the error and stops. */
  datatype RunResult = RunResult(dir: Directory, error: Option<Error>)

  ghost function Run(token: Option<string>, repoName: string, source: seq<SourceIssue>, dir: Directory): RunResult {
    if InitializeGithubClient(token).Failure? then RunResult(dir, Some(MissingToken))
    else if !Readable(dir) then RunResult(dir, Some(MalformedBatch))
    else
      var c := Candidates(source, StoredNumbers(dir));
      if !AllFetchable(c) then RunResult(dir, Some(FetchFailed))
      else if c == [] then RunResult(dir, None)
      else if !NumberedNames(dir) then RunResult(dir, Some(BadBatchName))
      else if !HasJson(dir) then RunResult(dir, Some(NoBatchFiles))
      else RunResult(StoreIssueBatch(dir, Repository(repoName, IssuesOf(c)), NextFileNumber(dir)), None)
  }

  /** `fetch_and_store_issues`; the `while True` body always ends in `break`, so it runs once. */
  method FetchAndStoreIssues(token: Option<string>, repoName: string, source: seq<SourceIssue>, dir: Directory)
    returns (after: Directory, error: Option<Error>)
    ensures RunResult(after, error) == Run(token, repoName, source, dir)
  {
    var client := InitializeGithubClient(token);
    if client.Failure? {
      return dir, Some(client.error);
    }
    var stored := GetStoredIssueNumbers(dir);
    if stored.Failure? {
      return dir, Some(stored.error);
    }
    var batch := CollectBatch(source, stored.value);
    if batch.Failure? {
      return dir, Some(batch.error);
    }
    if |batch.value| == 0 {
      return dir, None;
    }
    var number := GetFileNumber(dir);
    if number.Failure? {
      return dir, Some(number.error);
    }
    NextFileNumberUnique(dir, number.value, NextFileNumber(dir));
    after := StoreIssueBatch(dir, Repository(repoName, batch.value), number.value);
    return after, None;
  }

  /** A run writes at most one new file, a `.json` batch under a name not taken before;
      every existing entry is left as it was. A run that fails writes nothing. */
  lemma RunWritesAtMostOneBatch(token: Option<string>, repoName: string, source: seq<SourceIssue>, dir: Directory)
    ensures var r := Run(token, repoName, source, dir);
      && (forall f :: f in dir ==> f in r.dir && r.dir[f] == dir[f])
      && |r.dir.Keys - dir.Keys| <= 1
      && (forall f :: f in r.dir && f !in dir ==> IsJson(f) && r.dir[f].BatchFile?)
      && (r.error.Some? ==> r.dir == dir)
  {
    var r := Run(token, repoName, source, dir);
    if r.dir != dir {
      var n := NextFileNumber(dir);
      NewBatchNameIsFree(dir, n);
      BatchFileNameRoundTrip(n);
      assert r.dir.Keys - dir.Keys == {BatchFileName(n)};
    } else {
      assert r.dir.Keys - dir.Keys == {};
    }
  }

  /** The new batch is the first `BATCH_SIZE` source issues, in source order, whose numbers
      were not stored; none of them was stored before, and afterwards the stored set has
      grown by exactly their numbers. */
  lemma RunStoresFreshIssues(token: Option<string>, repoName: string, source: seq<SourceIssue>, dir: Directory)
    requires Run(token, repoName, source, dir).dir != dir
    ensures var c := Candidates(source, StoredNumbers(dir));
      var after := Run(token, repoName, source, dir).dir;
      && Readable(after)
      && 0 < |c| <= BATCH_SIZE
      && NumbersOf(IssuesOf(c)) !! StoredNumbers(dir)
      && StoredNumbers(after) == StoredNumbers(dir) + NumbersOf(IssuesOf(c))
  {
    var c := Candidates(source, StoredNumbers(dir));
    var n := NextFileNumber(dir);
    NewBatchNameIsFree(dir, n);
    StoreGrowsStoredNumbers(dir, Repository(repoName, IssuesOf(c)), n);
    var f := Fresh(source, StoredNumbers(dir));
    FreshMembers(source, |source|, StoredNumbers(dir));
    forall k | 0 <= k < |c| ensures c[k].issue.number !in StoredNumbers(dir) {
      assert c[k] in f;
    }
  }

  /** With nothing new in the source, a run adds no batch. */
  lemma RunWithNothingNew(token: Option<string>, repoName: string, source: seq<SourceIssue>, dir: Directory)
    requires forall k :: 0 <= k < |source| ==> source[k].issue.number in StoredNumbers(dir)
    ensures Run(token, repoName, source, dir).dir == dir
  {
    FreshNothing(source, |source|, StoredNumbers(dir));
  }

  lemma {:induction false} FreshNothing(source: seq<SourceIssue>, n: nat, stored: set<int>)
    requires n <= |source|
    requires forall k :: 0 <= k < n ==> source[k].issue.number in stored
    ensures FreshUpTo(source, n, stored) == []
    decreases n
  {
    if n > 0 {
      FreshNothing(source, n - 1, stored);
    }
  }

  /** `get_file_number` fails on a directory without `.json` files, so a run there never
      stores anything, whatever the source offers. */
  lemma EmptyDirectoryNeverStores(token: Option<string>, repoName: string, source: seq<SourceIssue>, dir: Directory)
    requires forall f :: f in dir ==> !IsJson(f)
    ensures Run(token, repoName, source, dir).dir == dir
    ensures var c := Candidates(source, StoredNumbers(dir));
      InitializeGithubClient(token).Success? && c != [] && AllFetchable(c) ==>
        Run(token, repoName, source, dir).error == Some(NoBatchFiles)
  {
  }

  /** The numbers stored across all batch files are pairwise distinct. */
  ghost predicate UniqueNumbers(dir: Directory) {
    forall f, g, i, j ::
      f in dir && g in dir && IsJson(f) && IsJson(g) && dir[f].BatchFile? && dir[g].BatchFile? &&
      0 <= i < |dir[f].repo.issues| && 0 <= j < |dir[g].repo.issues| && (f != g || i != j) ==>
        dir[f].repo.issues[i].number != dir[g].repo.issues[j].number
  }

  predicate DistinctNumbers(source: seq<SourceIssue>) {
    forall i, j :: 0 <= i < j < |source| ==> source[i].issue.number != source[j].issue.number
  }

  lemma {:induction false} FreshDistinct(source: seq<SourceIssue>, n: nat, stored: set<int>)
    requires n <= |source| && DistinctNumbers(source)
    ensures DistinctNumbers(FreshUpTo(source, n, stored))
    decreases n
  {
    if n > 0 {
      FreshDistinct(source, n - 1, stored);
      FreshMembers(source, n - 1, stored);
      var rest := FreshUpTo(source, n - 1, stored);
      var all := FreshUpTo(source, n, stored);
      forall k | 0 <= k < |rest| ensures rest[k].issue.number != source[n - 1].issue.number {
        assert rest[k] in source[..n - 1];
        var j :| 0 <= j < n - 1 && source[..n - 1][j] == rest[k];
        assert source[j] == rest[k];
      }
      forall i, j | 0 <= i < j < |all| ensures all[i].issue.number != all[j].issue.number {
        assert all[i] == rest[i];
        if j < |rest| {
          assert all[j] == rest[j];
        }
      }
    }
  }

  /** Dedup across runs: when the stored batches hold each number once and the source lists
      each number once, the batches after a run still hold each number once. */
  lemma RunKeepsNumbersUnique(token: Option<string>, repoName: string, source: seq<SourceIssue>, dir: Directory)
    requires UniqueNumbers(dir) && DistinctNumbers(source)
    ensures UniqueNumbers(Run(token, repoName, source, dir).dir)
  {
    var after := Run(token, repoName, source, dir).dir;
    if after != dir {
      var c := Candidates(source, StoredNumbers(dir));
      var n := NextFileNumber(dir);
      NewBatchNameIsFree(dir, n);
      RunStoresFreshIssues(token, repoName, source, dir);
      FreshDistinct(source, |source|, StoredNumbers(dir));
      var batch := IssuesOf(c);
      assert after == dir[BatchFileName(n) := BatchFile(Repository(repoName, batch))];
      assert DistinctNumbers(c);
      forall i, j | 0 <= i < j < |batch| ensures batch[i].number != batch[j].number {
        assert batch[i] == c[i].issue && batch[j] == c[j].issue;
      }
      AddKeepsUnique(dir, BatchFileName(n), Repository(repoName, batch));
    }
  }

  /** Adding a batch under a new name keeps the numbers unique when its own numbers are
      distinct and none is stored yet. */
  lemma AddKeepsUnique(dir: Directory, name: string, repo: Repository)
    requires name !in dir && UniqueNumbers(dir)
    requires forall i, j :: 0 <= i < j < |repo.issues| ==> repo.issues[i].number != repo.issues[j].number
    requires NumbersOf(repo.issues) !! StoredNumbers(dir)
    ensures UniqueNumbers(dir[name := BatchFile(repo)])
  {
    var d := dir[name := BatchFile(repo)];
    forall f, g, i, j |
      f in d && g in d && IsJson(f) && IsJson(g) && d[f].BatchFile? && d[g].BatchFile? &&
      0 <= i < |d[f].repo.issues| && 0 <= j < |d[g].repo.issues| && (f != g || i != j)
      ensures d[f].repo.issues[i].number != d[g].repo.issues[j].number
    {
      if f == name && g == name {
        if i > j {
          assert repo.issues[j].number != repo.issues[i].number;
        }
      } else if f == name {
        OldNumberStored(dir, g, j);
        assert repo.issues[i].number in NumbersOf(repo.issues);
      } else if g == name {
        OldNumberStored(dir, f, i);
        assert repo.issues[j].number in NumbersOf(repo.issues);
      }
    }
  }

  lemma OldNumberStored(dir: Directory, f: string, i: int)
    requires f in dir && IsJson(f) && dir[f].BatchFile? && 0 <= i < |dir[f].repo.issues|
    ensures dir[f].repo.issues[i].number in StoredNumbers(dir)
  {
    assert dir[f].repo.issues[i].number in NumbersOf(dir[f].repo.issues);
  }

  // ---------------------------------------------------------------------------------
  // Rebuilding the corpus

  ghost predicate Loadable(dir: Directory, names: seq<string>) {
    forall k :: 0 <= k < |names| ==> names[k] in dir && (IsJson(names[k]) ==> dir[names[k]].BatchFile?)
  }

  /** The issues of the `.json` batches among `names`, batch after batch in that order. */
  ghost function Concat(dir: Directory, names: seq<string>): seq<Issue>
    requires Loadable(dir, names)
    decreases |names|
  {
    if names == [] then []
    else (if IsJson(names[0]) then dir[names[0]].repo.issues else []) + Concat(dir, names[1..])
  }

  lemma {:induction false} ConcatAppend(dir: Directory, a: seq<string>, b: seq<string>)
    requires Loadable(dir, a) && Loadable(dir, b)
    ensures Loadable(dir, a + b)
    ensures Concat(dir, a + b) == Concat(dir, a) + Concat(dir, b)
    decreases |a|
  {
    if a != [] {
      assert (a + b)[1..] == a[1..] + b;
      ConcatAppend(dir, a[1..], b);
    } else {
      assert a + b == b;
    }
  }

  /** `load_all_issues`: every `.json` batch in sorted file-name order, issues concatenated. */
  method LoadAllIssues(repoName: string, dir: Directory) returns (r: Result<Repository, Error>)
    ensures r.Success? <==> Readable(dir)
    ensures r.Success? ==> Loadable(dir, SortedStrings(dir.Keys)) && r.value == Repository(repoName, Concat(dir, SortedStrings(dir.Keys)))
    ensures r.Failure? ==> r.error == MalformedBatch
  {
    var issues: seq<Issue> := [];
    var remaining := dir.Keys;
    ghost var done: seq<string> := [];
    while remaining != {}
      invariant remaining <= dir.Keys
      invariant ReadableAmong(dir, dir.Keys - remaining)
      invariant SortedStrings(dir.Keys) == done + SortedStrings(remaining)
      invariant Loadable(dir, done)
      invariant issues == Concat(dir, done)
      decreases remaining
    {
      LeastExists(remaining);
      var f :| f in remaining && forall x :: x in remaining ==> x == f || LexLess(f, x);
      if IsJson(f) && dir[f].Unparseable? {
        return Failure(MalformedBatch);
      }
      LoadStep(dir, done, remaining, f);
      remaining := remaining - {f};
      issues := issues + (if IsJson(f) then dir[f].repo.issues else []);
      done := done + [f];
    }
    assert dir.Keys - remaining == dir.Keys;
    assert SortedStrings(remaining) == [];
    assert done == SortedStrings(dir.Keys);
    return Success(Repository(repoName, issues));
  }

  /** One round of the sorted loop: the least remaining name is the next in sorted order. */
  lemma LoadStep(dir: Directory, done: seq<string>, remaining: set<string>, f: string)
    requires remaining <= dir.Keys && f in remaining
    requires forall x :: x in remaining ==> x == f || LexLess(f, x)
    requires SortedStrings(dir.Keys) == done + SortedStrings(remaining)
    requires ReadableAmong(dir, dir.Keys - remaining)
    requires Loadable(dir, done) && (IsJson(f) ==> dir[f].BatchFile?)
    ensures SortedStrings(dir.Keys) == (done + [f]) + SortedStrings(remaining - {f})
    ensures ReadableAmong(dir, dir.Keys - (remaining - {f}))
    ensures Loadable(dir, done + [f])
    ensures Concat(dir, done + [f]) == Concat(dir, done) + (if IsJson(f) then dir[f].repo.issues else [])
  {
    SortedStep(SortedStrings(dir.Keys), done, remaining, f);
    ReadableStep(dir, remaining, f);
    ConcatStep(dir, done, f);
  }

  lemma SortedStep(sorted: seq<string>, done: seq<string>, remaining: set<string>, f: string)
    requires f in remaining && forall x :: x in remaining ==> x == f || LexLess(f, x)
    requires sorted == done + SortedStrings(remaining)
    ensures sorted == (done + [f]) + SortedStrings(remaining - {f})
  {
    SortedStringsLeast(remaining, f);
    assert done + ([f] + SortedStrings(remaining - {f})) == (done + [f]) + SortedStrings(remaining - {f});
  }

  lemma ReadableStep(dir: Directory, remaining: set<string>, f: string)
    requires remaining <= dir.Keys && f in remaining
    requires ReadableAmong(dir, dir.Keys - remaining) && (IsJson(f) ==> dir[f].BatchFile?)
    ensures ReadableAmong(dir, dir.Keys - (remaining - {f}))
  {
    assert dir.Keys - (remaining - {f}) == (dir.Keys - remaining) + {f};
  }

  lemma ConcatStep(dir: Directory, done: seq<string>, f: string)
    requires Loadable(dir, done) && f in dir && (IsJson(f) ==> dir[f].BatchFile?)
    ensures Loadable(dir, done + [f])
    ensures Concat(dir, done + [f]) == Concat(dir, done) + (if IsJson(f) then dir[f].repo.issues else [])
  {
    ConcatAppend(dir, done, [f]);
    assert Concat(dir, [f]) == (if IsJson(f) then dir[f].repo.issues else []) + Concat(dir, []);
  }

  /** Batch files load in lexicographic, not numeric, order: batch 10 precedes batch 2. */
  lemma LexicographicBatchOrder(ten: string, two: string, x: Repository, y: Repository)
    requires ten == "batch_10.json" && two == "batch_2.json"
    ensures var dir := map[ten := BatchFile(x), two := BatchFile(y)];
      SortedStrings(dir.Keys) == [ten, two] &&
      Concat(dir, SortedStrings(dir.Keys)) == x.issues + y.issues
  {
    BatchNames(ten, two);
    LoadPair(ten, two, x, y);
  }

  /** Both names are `.json` batches, and batch 10's sorts first. */
  lemma BatchNames(ten: string, two: string)
    requires ten == "batch_10.json" && two == "batch_2.json"
    ensures IsJson(ten) && IsJson(two) && LexLess(ten, two)
  {
    JsonName("batch_10", ten);
    JsonName("batch_2", two);
    TenBeforeTwo();
  }

  /** `"batch_10.json" < "batch_2.json"`: the names agree up to `1` against `2`. */
  lemma TenBeforeTwo()
    ensures LexLess("batch_10.json", "batch_2.json")
  {
    var stem := "batch_";
    assert "batch_10.json" == stem + "10.json";
    assert "batch_2.json" == stem + "2.json";
    assert LexLess("10.json", "2.json");
    CommonStem(stem, "10.json", "2.json");
  }

  lemma JsonName(stem: string, name: string)
    requires name == stem + ".json"
    ensures IsJson(name)
  {
    assert name[|name| - 5..] == ".json";
  }

  /** Two batches load in the order of their names. */
  lemma LoadPair(a: string, b: string, x: Repository, y: Repository)
    requires LexLess(a, b) && IsJson(a) && IsJson(b)
    ensures var dir := map[a := BatchFile(x), b := BatchFile(y)];
      SortedStrings(dir.Keys) == [a, b] &&
      Concat(dir, SortedStrings(dir.Keys)) == x.issues + y.issues
  {
    LexLessIrreflexive(a);
    var dir := map[a := BatchFile(x), b := BatchFile(y)];
    assert dir.Keys == {a, b};
    SortedPair(a, b);
    assert Concat(dir, [b]) == y.issues;
  }

  /** Strings that share a stem compare as what follows it does. */
  lemma CommonStem(stem: string, x: string, y: string)
    ensures LexLess(stem + x, stem + y) == LexLess(x, y)
  {
    var a, b := stem + x, stem + y;
    assert a[..|stem|] == stem == b[..|stem|];
    PrefixLexLess(a, b, |stem|);
    assert a[|stem|..] == x && b[|stem|..] == y;
  }

  /** Two strings in order: sorting the pair gives them in that order. */
  lemma SortedPair(a: string, b: string)
    requires LexLess(a, b)
    ensures SortedStrings({a, b}) == [a, b]
  {
    LexLessIrreflexive(a);
    SortedStringsLeast({a, b}, a);
    assert {a, b} - {a} == {b};
    SortedStringsLeast({b}, b);
    assert {b} - {b} == {};
  }

  /** Strings with a common prefix compare as their remainders do. */
  lemma {:induction false} PrefixLexLess(a: string, b: string, k: nat)
    requires k <= |a| && k <= |b| && a[..k] == b[..k]
    ensures LexLess(a, b) == LexLess(a[k..], b[k..])
    decreases k
  {
    if k > 0 {
      assert a[0] == a[..k][0] == b[..k][0] == b[0];
      assert a[1..][..k - 1] == a[1..k] == b[1..k] == b[1..][..k - 1];
      PrefixLexLess(a[1..], b[1..], k - 1);
      assert a[1..][k - 1..] == a[k..];
      assert b[1..][k - 1..] == b[k..];
    }
  }
}
