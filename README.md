# IoT API change taxonomy pipeline: a Dafny model

The repository is a chain of Python data-processing scripts. Together they build a corpus of
Home Assistant issues and classify them against a taxonomy of IoT API changes. This project
models the logic at the core of each script and proves properties of it:

- **Batch store** (`BatchStore`, `batch_store.dfy`): the issue numbers already stored in the
  batch directory; one collection run that gathers up to `BATCH_SIZE` = 100 issues not yet
  stored and writes them as `batch_<n>.json`; the suffix numbering and its parsing; and loading
  all batches back in sorted filename order.
- **Relevance filter** (`RelevanceFilter`, `relevance_filter.dfy`): per-field threshold matching
  of title, body and comments against the API-change search terms; keeping the issues with at
  least one match; and the stable descending sort on each issue's best score.
- **Tag join** (`TagJoin`, `tag_join.dfy`): turning `integration:` tags into integration URIs,
  assigning them to each change report in place, and the two order-preserving filters.
- **Integration metadata** (`IntegrationDocs`, `integration_docs.dfy`): the two regular
  expressions of an integration page, written as scanners; the deployment type and
  communication mechanism derived from the IoT class; and the validity filter applied on save.
- **Taxonomy classifier** (`TaxonomyClassifier`, `taxonomy.dfy`): the closed label enumeration,
  the prompt placeholder substitution, the two-attempt retry against the oracle, the
  skip-if-classified loop over an array of issues, and the saved document.
- **Screening driver** (`Screening`, `screening.dfy`): the content string; the results file as
  a dictionary keyed by issue number and updated by upsert; and the run that skips the numbers
  already in the file.
- **Annotation tool** (`Annotation`, `annotation.dfy`): the cursor state machine driven by
  `a`/`d`/`s`/`q` answers, saved after every step and reset when the list is finished.
- `Text` (`text.dfy`) holds the Python string operations the scripts use: `startswith`,
  `endswith`, `in`, `find`, `split`, `replace`, `join`, `strip`, ASCII `lower`, `int()`,
  `str()` and string ordering with `sorted`. `Wrappers` (`wrappers.dfy`) holds `Option` and
  `Result`.

External collaborators are parameters:

- The GitHub issue source is a sequence of issue records. Each record carries whether building
  it (fetching its comments and labels) succeeds.
- The batch directory is a map from file name to file content.
- An HTTP fetch is a function from URL to an optional response (status and parsed page).
  `None` stands for a request that raised.
- The fuzzy scorer is a function into the range 0 to 100.
- Each language-model oracle is a function to an optional parsed answer. `None` stands for a
  request or parse that raised. The screening oracle takes the prompt. The classification
  oracle takes the prompt and the attempt number (0, then 1 for the retry), so a retry of the
  same prompt may get a different answer.
- The reviewer of the annotation tool is a sequence of typed answers.

The model follows the code where it departs from the intended design:

- The integration filter in the post-filtering script is given the integrations' own API list,
  so it keeps every integration (`TagJoin.IntegrationFilterKeepsAll`).
- The classification loop's fallback `APITaxonomyClassification(class_type=..., confidence=0.0,
  explanation=...)` passes two fields by name that the class declares only under aliases, and
  name population is not enabled. Building it therefore raises a validation error. It is built
  for an unclassified issue with neither title nor body, before any prompt, and for one whose
  two attempts both fail. The script stops there and writes nothing
  (`TaxonomyClassifier.BothAbsentRaisesBeforeAsking`, `TaxonomyClassifier.FailedAnalysisRaises`,
  `TaxonomyClassifier.ScriptOutput`).
- Oracle labels are stored without checking them against the enumeration
  (`TaxonomyClassifier.LabelsAreNotValidated`).
- Batch files load in lexicographic filename order, so `batch_10.json` comes before
  `batch_2.json` (`BatchStore.LexicographicBatchOrder`).
- A collection run writes at most one batch (`BatchStore.RunWritesAtMostOneBatch`).
- The next file number cannot be computed in a directory without `.json` files, so such a run
  stores nothing (`BatchStore.EmptyDirectoryNeverStores`).

## Model

| member | source | states |
|---|---|---|
| Text.Find | scripts/post-filtering.py:107 | `find`: the result is an index where the pattern occurs with no earlier occurrence, and it is absent exactly when the text does not contain the pattern |
| Text.FindFirst | scripts/post-filtering.py:107 | the leftmost occurrence of the pattern is what `find` returns |
| Text.MissingChar | data_processing/data-gathering-integration-documentations.py:119 | a text that lacks one character of the pattern does not contain the pattern |
| Text.Split | scripts/post-filtering.py:107 | `split` yields at least one part, and at least two exactly when the separator occurs |
| Text.SplitSecond | scripts/post-filtering.py:107 | part `[1]` of a split is the text between the first separator and the next one, or the end |
| Text.SplitJoin | scripts/post-filtering.py:107 | joining the parts of a split with the separator gives back the text |
| Text.SplitPartsClean | scripts/post-filtering.py:107 | no part of a split contains the separator |
| Text.ReplaceSkipsPrefix | data_processing/api-taxonomy-classification.py:275-280 | text without the pattern's first character is copied unchanged by `replace` |
| Text.Replace | data_processing/api-taxonomy-classification.py:275-280 | `str.replace` of every non-overlapping occurrence, scanning left to right; its properties are ReplaceSkipsPrefix, ReplaceAbsent and ReplaceSplits |
| Text.ReplaceAbsent | data_processing/api-taxonomy-classification.py:275-280 | a text that does not contain the pattern is returned unchanged |
| Text.ReplaceSplits | data_processing/api-taxonomy-classification.py:275-280 | `replace` distributes over a concatenation whose second part starts with a character outside the pattern |
| Text.Join | scripts/prefiltering.py:139 | `str.join`: the parts with the separator between each two; SplitJoin makes it the inverse of Split |
| Text.NatToStringDigits | data_processing/data-gathering.py:157 | the decimal text of a natural number is a non-empty run of digits whose value is that number |
| Text.IntToStringRoundTrip | scripts/data-gathering.py:89 | `int(str(i)) == i` for every integer |
| Text.IntToStringChars | scripts/prefiltering.py:181 | the text of an integer holds only digits and a leading minus sign |
| Text.LexLessIrreflexive | scripts/data-gathering.py:220 | no string sorts before itself |
| Text.LexLessTransitive | scripts/data-gathering.py:220 | string order is transitive |
| Text.LexLessTotal | scripts/data-gathering.py:220 | any two distinct strings are ordered one way or the other |
| Text.LexLessAsymmetric | scripts/data-gathering.py:220 | no two strings sort before each other |
| Text.LeastExists | scripts/data-gathering.py:220 | a finite non-empty set of names has a least element |
| Text.LeastUnique | scripts/data-gathering.py:220 | that least element is unique |
| Text.SortedStrings | scripts/data-gathering.py:220 | `sorted` of a set of names has one entry per name |
| Text.SortedStringsSpec | scripts/data-gathering.py:220 | `sorted` lists exactly the names of the set, in strictly increasing order |
| Text.SortedStringsLeast | scripts/data-gathering.py:220 | `sorted` starts with the least name, followed by the sorted rest |
| BatchStore.InitializeGithubClient | scripts/data-gathering.py:56-60 | the client is created exactly when the token is present and non-empty; otherwise the error is a missing token |
| BatchStore.NumbersInAdd | data_processing/data-gathering.py:70-76 | reading one more file adds exactly its issue numbers when it is a `.json` batch, and nothing otherwise |
| BatchStore.StoredNumbers | data_processing/data-gathering.py:63-76 | the union of the issue numbers of the `.json` batches; GetStoredIssueNumbers computes it and StoreGrowsStoredNumbers tracks it across a store |
| BatchStore.GetStoredIssueNumbers | data_processing/data-gathering.py:63-76 | succeeds exactly when every `.json` file decodes as a batch; the result is the union of the issue numbers over all `.json` files, other files ignored |
| BatchStore.Max | scripts/data-gathering.py:90 | the maximum of a non-empty list is one of its elements and bounds all of them |
| BatchStore.GetFileNumber | scripts/data-gathering.py:79-90 | succeeds exactly when a `.json` file exists and every `.json` name has an integer suffix; the result exceeds every suffix and is one more than one of them; otherwise the error says which condition failed |
| BatchStore.NextFileNumberUnique | scripts/data-gathering.py:86-90 | the next file number is determined by the directory |
| BatchStore.NextFileNumberExists | scripts/data-gathering.py:86-90 | a next file number exists whenever a `.json` file exists and all `.json` names are numbered |
| BatchStore.LargestSuffix | scripts/data-gathering.py:90 | among numbered names some name has the largest suffix |
| BatchStore.NextFileNumber | scripts/data-gathering.py:86-90 | the next file number exceeds every suffix and is one more than one of them |
| BatchStore.Suffix | scripts/data-gathering.py:89 | `int(filename.split("_")[1].split(".")[0])`, absent on the index or value error; SuffixOfName and BatchFileNameRoundTrip state its value |
| BatchStore.SuffixOfName | scripts/data-gathering.py:89 | for `stem_mid.ext` with no `_` in any part and no `.` in `mid`, the parsed suffix is `int(mid)` |
| BatchStore.SplitAtOnly | scripts/data-gathering.py:89 | splitting `a + c + b` at a character `c` found in neither part gives `[a, b]` |
| BatchStore.HeadBeforeDot | scripts/data-gathering.py:89 | `split(".")[0]` of `mid.ext` is `mid` when `mid` holds no dot |
| BatchStore.BatchFileNameRoundTrip | data_processing/data-gathering.py:157 | the name written for batch `n` is a `.json` name whose suffix parses back to `n` |
| BatchStore.NameWithoutUnderscore | scripts/data-gathering.py:89 | every name without `_` has no suffix (the index error) |
| BatchStore.NameWithNonNumericSuffix | scripts/data-gathering.py:89 | every name `stem_mid.ext` whose segment `mid` is not an integer has no suffix (the value error) |
| BatchStore.NewBatchNameIsFree | scripts/data-gathering.py:86-90 | the name of the next batch is not yet in the directory, so storing never overwrites a file |
| BatchStore.StoreIssueBatch | data_processing/data-gathering.py:149-159 | the directory gains exactly `batch_<n>.json` holding the repository; every other file is unchanged |
| BatchStore.StoreGrowsStoredNumbers | data_processing/data-gathering.py:203 | after storing a new name, the stored numbers are the old ones plus exactly the new batch's; readability is kept |
| BatchStore.Fresh | data_processing/data-gathering.py:184-187 | the source issues whose number is not stored, in source order; FreshMembers and FreshPrefix state this |
| BatchStore.Candidates | data_processing/data-gathering.py:182-195 | the first `BATCH_SIZE` fresh issues; CandidatesFilled and CandidatesNext state the loop's break |
| BatchStore.FreshMembers | data_processing/data-gathering.py:184-187 | an issue among the first `n` source issues is collected exactly when its number is not stored |
| BatchStore.FreshPrefix | data_processing/data-gathering.py:184-192 | the issues collected from a shorter prefix of the source are a prefix of those from a longer one, so source order is kept |
| BatchStore.CandidatesFilled | data_processing/data-gathering.py:194-195 | once `BATCH_SIZE` issues are collected the batch is complete |
| BatchStore.CandidatesNext | data_processing/data-gathering.py:190-192 | while fewer than `BATCH_SIZE` are collected, the next unstored source issue is the next one of the batch |
| BatchStore.CollectBatch | data_processing/data-gathering.py:182-198 | succeeds exactly when every issue of the batch (the first `BATCH_SIZE` unstored ones) can be built; the result is their records in source order; otherwise a fetch failure |
| BatchStore.Run | data_processing/data-gathering.py:163-205 | the directory and error after one run; FetchAndStoreIssues computes it, RunWritesAtMostOneBatch and RunStoresFreshIssues state its effect |
| BatchStore.FetchAndStoreIssues | data_processing/data-gathering.py:163-205 | the directory and error after a run: token check, reading the stored numbers, collecting, the empty break, the file number and the single store, in that order |
| BatchStore.RunWritesAtMostOneBatch | data_processing/data-gathering.py:182-205 | a run keeps every existing file, adds at most one file, which is a `.json` batch, and changes nothing when it fails |
| BatchStore.RunStoresFreshIssues | data_processing/data-gathering.py:179-203 | a batch that is written holds 1 to `BATCH_SIZE` issues, none already stored, and the stored numbers grow by exactly theirs |
| BatchStore.RunWithNothingNew | data_processing/data-gathering.py:197-198 | when every source issue is already stored, a run writes nothing |
| BatchStore.FreshNothing | data_processing/data-gathering.py:184-187 | nothing is collected from a prefix whose numbers are all stored |
| BatchStore.EmptyDirectoryNeverStores | scripts/data-gathering.py:86-90 | a directory without `.json` files never gains a batch; a run that collected issues then fails for lack of batch files |
| BatchStore.FreshDistinct | data_processing/data-gathering.py:184-192 | a source with distinct numbers yields a batch with distinct numbers |
| BatchStore.RunKeepsNumbersUnique | data_processing/data-gathering.py:179-203 | if no issue number occurs twice in the stored batches, a run keeps it so |
| BatchStore.AddKeepsUnique | data_processing/data-gathering.py:202 | adding a batch with distinct, unstored numbers under a new name keeps the stored numbers unique |
| BatchStore.ConcatAppend | scripts/data-gathering.py:220-225 | loading the names `a` then `b` gives the issues of `a` followed by those of `b` |
| BatchStore.LoadAllIssues | scripts/data-gathering.py:208-227 | succeeds exactly when every `.json` file decodes; the issues are those of the `.json` batches concatenated in sorted name order, each batch in its own order |
| BatchStore.LoadStep | scripts/data-gathering.py:220-225 | one loop step: the least remaining name is the next in sorted order, and its issues, if it is a `.json` batch, are appended |
| BatchStore.LexicographicBatchOrder | scripts/data-gathering.py:220 | a directory holding `batch_10.json` and `batch_2.json` sorts batch 10 first and loads its issues before those of batch 2 |
| BatchStore.LoadPair | scripts/data-gathering.py:220-225 | two `.json` batches load in the lexicographic order of their names |
| RelevanceFilter.SearchSingleIssue | scripts/prefiltering.py:146-187 | the result holds the unchanged issue and its title, body and comment matches in that order |
| RelevanceFilter.FieldMatch | scripts/prefiltering.py:124-143 | one field's match: present exactly when the text is non-empty and its score of the space-joined terms reaches the threshold; TitleAndBodyFirst and MatchesAreSound state this |
| RelevanceFilter.IssueMatches | scripts/prefiltering.py:146-187 | the title, body and comment matches of one issue, in that order; SearchSingleIssue computes it |
| RelevanceFilter.CommentMatchesSound | scripts/prefiltering.py:176-185 | every comment match has non-empty text scoring at least the threshold, its kind names the comment's id, and its text is that comment's body |
| RelevanceFilter.MatchesAreSound | scripts/prefiltering.py:163-185 | every match has non-empty text, a score that is the scorer's and at least the threshold, and comes from the field its type names |
| RelevanceFilter.TypeNamesDistinct | scripts/prefiltering.py:168-181 | the type strings `title`, `body` and `comment_<id>` are equal exactly for equal kinds; comment kinds start with `comment_` |
| RelevanceFilter.CommentNameHasId | scripts/prefiltering.py:181 | the text after `comment_` is the comment id |
| RelevanceFilter.TitleAndBodyFirst | scripts/prefiltering.py:163-173 | there is a title match, placed first, exactly when the title is non-empty and scores at least the threshold; likewise the body, with an absent body scored as the empty string |
| RelevanceFilter.CommentMatchesMonotone | scripts/prefiltering.py:176-185 | raising the threshold never adds a comment match |
| RelevanceFilter.ThresholdMonotone | scripts/prefiltering.py:166-185 | raising the threshold never adds a match to an issue |
| RelevanceFilter.Retained | scripts/prefiltering.py:206-209 | the results kept by the loop: at most one per issue, each with at least one match |
| RelevanceFilter.NonEmptyPositionsMembers | scripts/prefiltering.py:206-209 | the listed positions are exactly those whose match list is non-empty |
| RelevanceFilter.MatchingPositions | scripts/prefiltering.py:206-209 | the positions of the issues with at least one match, strictly increasing, each exactly when it matches |
| RelevanceFilter.RetainedIsFilter | scripts/prefiltering.py:206-209 | the retained results are one per matching issue, in input order: the j-th is the result of the j-th matching issue with its matches |
| RelevanceFilter.RetainedMembers | scripts/prefiltering.py:206-209 | the results are exactly the issues with at least one match, each with its matches |
| RelevanceFilter.RetainedMatched | scripts/prefiltering.py:208 | every result has at least one match |
| RelevanceFilter.RetainedMonotone | scripts/prefiltering.py:206-209 | raising the threshold never retains more issues |
| RelevanceFilter.RetainedSubset | scripts/prefiltering.py:206-209 | an issue retained at a higher threshold is retained at a lower one |
| RelevanceFilter.StillRetained | scripts/prefiltering.py:208 | a result at a higher threshold becomes a result at a lower one, with that threshold's matches |
| RelevanceFilter.BestScoreIsMax | scripts/prefiltering.py:212 | the sort key is the highest match score: it bounds every match and is attained |
| RelevanceFilter.Insert | scripts/prefiltering.py:211-213 | one step of the stable sort: one more result, all still matched; InsertPermutes, InsertDescending and InsertStable state the rest |
| RelevanceFilter.SortByBestScore | scripts/prefiltering.py:211-213 | `sorted(..., key=best score, reverse=True)`: as many results, all still matched; SortPermutes, SortDescending and SortStable state the rest |
| RelevanceFilter.SortPermutes | scripts/prefiltering.py:211-213 | the sort returns a permutation of the results |
| RelevanceFilter.SortDescending | scripts/prefiltering.py:211-213 | the sorted results have non-increasing best scores |
| RelevanceFilter.SortStable | scripts/prefiltering.py:211-213 | results with equal best scores keep their input order |
| RelevanceFilter.SearchIssuesAndComments | scripts/prefiltering.py:190-213 | the output is the retained results sorted stably by descending best score |
| RelevanceFilter.SearchSpec | scripts/prefiltering.py:190-213 | the output is a permutation of the retained results, descending and stable; it has one result per matching issue, and the retained results are those of the matching issues in input order |
| RelevanceFilter.LoadIssuesFromDirectory | scripts/prefiltering.py:95-121 | a missing directory fails with `DirectoryMissing` (the `FileNotFoundError` of `os.listdir`); otherwise it succeeds exactly when every `.json` file decodes; the issues are the batches concatenated in sorted name order, under an empty repository name |
| TagJoin.TagUri | scripts/post-filtering.py:107 | succeeds exactly when the tag contains `": "`; the URI is the base URL followed by the text after the first separator up to the next; otherwise the index error |
| TagJoin.Segment | scripts/post-filtering.py:107 | `tag.split(": ")[1]`: the text between the first separator and the next; TagUri states it |
| TagJoin.IntegrationTags | scripts/post-filtering.py:108-109 | the selected tags are exactly those that start with `integration:` |
| TagJoin.ExtractSpec | scripts/post-filtering.py:96-110 | extraction succeeds exactly when every integration tag has a separator, then gives one URI per integration tag in tag order; a failure names an integration tag without a separator |
| TagJoin.TagForName | scripts/post-filtering.py:107 | `integration: <name>`, for a name without `:`, gives the base URL followed by the name |
| TagJoin.ExtractExample | scripts/post-filtering.py:106-110 | an integration tag followed by another tag gives just that integration's URI |
| TagJoin.WithInvolvedApis | scripts/post-filtering.py:127-128 | one report with its tags' URIs assigned; AssignInvolvedApis applies it in place |
| TagJoin.FilterReportsByApis | scripts/post-filtering.py:70-81 | keeps exactly the reports with some involved API in the list, never adding any |
| TagJoin.FilterIntegrationsByApis | scripts/post-filtering.py:83-94 | keeps exactly the integrations whose API is in the list, never adding any |
| TagJoin.FilterReportsAppend | scripts/post-filtering.py:81 | the report filter distributes over concatenation, so it keeps input order |
| TagJoin.FilterIntegrationsAppend | scripts/post-filtering.py:94 | the integration filter distributes over concatenation, so it keeps input order |
| TagJoin.FilterKeepsListed | scripts/post-filtering.py:94 | when every API is listed, the integration filter returns its input |
| TagJoin.IntegrationFilterKeepsAll | scripts/post-filtering.py:125-132 | filtering integrations by their own API list drops none |
| TagJoin.AssignInvolvedApis | scripts/post-filtering.py:127-128 | each report's involved APIs become the URIs of its tags, in place; on the first bad tag the call fails with that tag's error, the reports before it are assigned and those from it on are as they were |
| TagJoin.PostFilter | scripts/post-filtering.py:112-132 | the filtered reports are those involving a known integration, each with a URI of some integration; all integrations are kept |
| IntegrationDocs.RunEnd | data_processing/data-gathering-integration-documentations.py:130 | the greedy run of digits and dots: every character up to the end is one, and the next is not |
| IntegrationDocs.FirstVersionMatch | data_processing/data-gathering-integration-documentations.py:130 | the leftmost position where the version pattern matches, or none |
| IntegrationDocs.ExtractIntroductionVersion | data_processing/data-gathering-integration-documentations.py:128-131 | the result is not `Unknown` exactly when the pattern matches, and then it is the greedy capture of the leftmost match |
| IntegrationDocs.StopFrom | data_processing/data-gathering-integration-documentations.py:136 | the first dot or newline at or after a position, or the end |
| IntegrationDocs.ClassEndSpec | data_processing/data-gathering-integration-documentations.py:136 | the lazy capture at a position ends at the first possible dot, and is found whenever the pattern matches there |
| IntegrationDocs.FirstClassMatch | data_processing/data-gathering-integration-documentations.py:136 | the leftmost position where the class pattern matches, with its capture end |
| IntegrationDocs.FirstClassMatchSpec | data_processing/data-gathering-integration-documentations.py:136 | that search finds the leftmost, shortest match, and finds none only when there is none |
| IntegrationDocs.ExtractIotClass | data_processing/data-gathering-integration-documentations.py:134-137 | `Unknown` when the pattern does not match; otherwise the shortest newline-free capture of the leftmost match |
| IntegrationDocs.DeploymentType | data_processing/data-gathering-integration-documentations.py:118-120 | `Cloud` exactly when the lower-cased class contains `cloud`, else `Local` |
| IntegrationDocs.CommunicationMechanism | data_processing/data-gathering-integration-documentations.py:121-123 | `Push` exactly when the lower-cased class contains `push`, else `Polling` |
| IntegrationDocs.ValidClassesDerive | data_processing/data-gathering-integration-documentations.py:13-18 | each of the four valid classes reads as its deployment type and mechanism; `Unknown` reads as Local and Polling |
| IntegrationDocs.ExtractIntegrationInfo | data_processing/data-gathering-integration-documentations.py:77-125 | a record exactly when the page has the sidebar and its intro section; it carries the given API, the class of the intro text, the version of the stripped intro text, the article or `""`, the stripped category links in order, and the fields derived from the class |
| IntegrationDocs.FetchIntegrationInfo | data_processing/data-gathering-integration-documentations.py:149-164 | a failure carrying the URL exactly when the request raises; otherwise a record exactly when the status is 200 and the page yields one, with the URL as its API |
| IntegrationDocs.LoadIntegrationUrls | data_processing/data-gathering-integration-documentations.py:167-171 | one URL per listed path, in order, each the site URL followed by the path |
| IntegrationDocs.ScrapedMembers | data_processing/data-gathering-integration-documentations.py:195-199 | when no request raises, the scraped records are exactly the records of the URLs whose page yields one |
| IntegrationDocs.Scraped | data_processing/data-gathering-integration-documentations.py:190-199 | the scrape succeeds exactly when no request raises; ScrapedMembers and ScrapedStopsAt state its value |
| IntegrationDocs.ScrapedStopsAt | data_processing/data-gathering-integration-documentations.py:159 | the first request that raises ends the scrape with its URL as the error |
| IntegrationDocs.ScrapeIntegrations | data_processing/data-gathering-integration-documentations.py:195-199 | the loop keeps the successful pages in URL order, skips the others, and stops at the first request that raises |
| IntegrationDocs.KeptUpToMembers | data_processing/data-gathering-integration-documentations.py:177-183 | the filter keeps exactly the accepted integrations |
| IntegrationDocs.ValidOnes | data_processing/data-gathering-integration-documentations.py:174-187 | the integrations with a valid class and a valid category, in order; KeptUpToMembers and SaveIntegrations state it |
| IntegrationDocs.SaveIntegrations | data_processing/data-gathering-integration-documentations.py:174-187 | the saved integrations are those with a valid class and a valid category, in input order |
| IntegrationDocs.GatherIntegrations | data_processing/data-gathering-integration-documentations.py:190-201 | nothing is saved exactly when some request raises; otherwise the valid scraped integrations are saved, each with a valid class whose derived fields spell it and from a listed URL fetched with status 200 |
| TaxonomyClassifier.ListHoldsEveryMember | scripts/api-taxonomy-classification.py:165-195 | every enumeration member sits in the label list at its declaration position |
| TaxonomyClassifier.ListIsDeclarationOrder | scripts/api-taxonomy-classification.py:132-195 | the list holds 29 members in declaration order and ends with `Unknown` |
| TaxonomyClassifier.ListOrdinal | scripts/api-taxonomy-classification.py:165-195 | the i-th entry of the list is the member declared i-th |
| TaxonomyClassifier.ListHoldsEachMemberOnce | scripts/api-taxonomy-classification.py:165-195 | every member occurs in the list exactly once |
| TaxonomyClassifier.LabelsDistinct | scripts/api-taxonomy-classification.py:133-161 | distinct members have distinct label strings |
| TaxonomyClassifier.Label | scripts/api-taxonomy-classification.py:133-161 | every label is non-empty, and only `Unknown` has the label `Unknown` |
| TaxonomyClassifier.FillTemplate | data_processing/api-taxonomy-classification.py:275-280 | the three replace-all substitutions over a template of this shape, as one closed form |
| TaxonomyClassifier.TemplateShape | data_processing/api-taxonomy-classification.py:121-129 | the fixed pieces of the prompt template hold no `{` and the later ones start with a newline |
| TaxonomyClassifier.PromptClosedForm | data_processing/api-taxonomy-classification.py:275-280 | the prompt sent: the body goes in first, then the title, then the comments, so slots inside the body and title are filled too, while the comment text goes in verbatim |
| TaxonomyClassifier.BodyPlaceholderIsFilled | data_processing/api-taxonomy-classification.py:275-276 | a body that is `{title}` shows the title twice |
| TaxonomyClassifier.AnalyzeContent | data_processing/api-taxonomy-classification.py:272-298 | the attempt loop's answer and prompts are those of the two-attempt model |
| TaxonomyClassifier.Analyze | data_processing/api-taxonomy-classification.py:278-298 | absent exactly when both attempts fail; otherwise the answer of one of the two attempts |
| TaxonomyClassifier.AnalyzeSpec | data_processing/api-taxonomy-classification.py:278-298 | one or two prompts, the first with all comments joined by newlines, the second with none and only after the first fails; the answer is the first that parses and is absent exactly when both fail |
| TaxonomyClassifier.NoCommentsSamePrompt | data_processing/api-taxonomy-classification.py:278-280 | with no comments the retry sends the prompt that failed again, and its answer is the outcome |
| TaxonomyClassifier.ClassifyAll | data_processing/api-taxonomy-classification.py:301-324 | the loop completes exactly when no visit raises; the issues before the first raise are classified and the rest are as they were; the prompts are those of the visits up to and including the raise |
| TaxonomyClassifier.VisitIssue | data_processing/api-taxonomy-classification.py:302-323 | one visit changes only its issue, to the model of one visit, reports whether building the fallback raised, and sends that visit's prompts |
| TaxonomyClassifier.ClassifyOneSpec | data_processing/api-taxonomy-classification.py:301-323 | a classified issue is untouched with no call; one with neither title nor body raises with no call; any other costs one or two calls and raises exactly when both fail, else gets the oracle's list |
| TaxonomyClassifier.ClassifyOne | data_processing/api-taxonomy-classification.py:301-323 | a visit keeps the other fields; the issue has a class afterwards exactly when the visit does not raise; a classified issue is returned unchanged |
| TaxonomyClassifier.FirstRaise | data_processing/api-taxonomy-classification.py:301-323 | the position where the loop stops: no visit before it raises, and the visit there does |
| TaxonomyClassifier.BothAbsentRaisesBeforeAsking | data_processing/api-taxonomy-classification.py:308-311 | an unclassified issue with neither title nor body raises before any prompt; the loop stops at or before it and nothing is written |
| TaxonomyClassifier.FailedAnalysisRaises | data_processing/api-taxonomy-classification.py:316-321 | an issue whose two attempts both fail raises after two prompts; the loop stops at or before it and nothing is written |
| TaxonomyClassifier.LabelsAreNotValidated | scripts/api-taxonomy-classification.py:199-201 | whatever list the oracle returns is stored as it is |
| TaxonomyClassifier.PassClassifiesEveryIssue | data_processing/api-taxonomy-classification.py:301-324 | after the loop the issues keep their order and other fields, every issue before the stop has a class, and a completed loop classifies each issue |
| TaxonomyClassifier.NothingToAsk | data_processing/api-taxonomy-classification.py:302-303 | with every issue classified the loop sends no prompt |
| TaxonomyClassifier.RerunIsIdempotent | data_processing/api-taxonomy-classification.py:301-303 | re-running on the output of a completed loop, with any oracle, changes nothing, sends no prompt and completes |
| TaxonomyClassifier.SaveResults | scripts/api-taxonomy-classification.py:331-349 | the save loop builds the saved document |
| TaxonomyClassifier.SavedDocumentSpec | scripts/api-taxonomy-classification.py:331-347 | one entry per issue in load order; an issue's own class, or the fixed `Unknown`/0.9 entry when it has none |
| TaxonomyClassifier.SavedEntry | scripts/api-taxonomy-classification.py:335-346 | one saved entry keeps the issue's fields and carries its class, or the fixed `Unknown`/0.9 entry when it has none |
| TaxonomyClassifier.ScriptOutput | data_processing/api-taxonomy-classification.py:301-350 | the script writes a document exactly when no visit raises |
| TaxonomyClassifier.ClassifyAndSave | data_processing/api-taxonomy-classification.py:301-350 | what the script writes is the model's output, and the prompts are those of the visits made |
| TaxonomyClassifier.FallbackUnreachableAfterPass | scripts/api-taxonomy-classification.py:335-346 | when the script writes, every entry carries the class the loop assigned, never the save-time fallback |
| Screening.ProcessSearchResult | data_processing/screening-with-llm.py:177-190 | the `+=` loop builds the header followed by one line per comment |
| Screening.CommentsTextAppend | data_processing/screening-with-llm.py:188-189 | the comment text of two comment lists is the concatenation of theirs |
| Screening.ContentStringShape | data_processing/screening-with-llm.py:187 | the content starts with the title and body, and an absent body shows as empty |
| Screening.ContentString | data_processing/screening-with-llm.py:177-190 | the header followed by one line per comment; ContentStringShape, CommentsTextAround and ProcessSearchResult state it |
| Screening.CommentsTextAround | data_processing/screening-with-llm.py:188-189 | each comment's line sits between the lines of the comments before and after it |
| Screening.IndexOfNumber | data_processing/screening-with-llm.py:172 | the position of an issue number in the dictionary, absent exactly when the number is not a key |
| Screening.AsMapOfUnique | data_processing/screening-with-llm.py:160 | with distinct numbers, the dictionary maps each number to its record |
| Screening.UpsertSpec | data_processing/screening-with-llm.py:171-172 | an upsert keeps the keys distinct and gives the old map with the number mapped to the record; an existing key keeps its place, a new one goes last |
| Screening.Upsert | data_processing/screening-with-llm.py:171-172 | `existing_results[number] = record` on the dictionary as an ordered list; UpsertSpec states its effect |
| Screening.UpdateAllLastWins | data_processing/screening-with-llm.py:160 | loading records one by one: the keys are the old ones plus the records', the last record for a number wins, and other keys keep their values |
| Screening.LoadRecordsSpec | data_processing/screening-with-llm.py:157-161 | loading gives distinct keys and the map in which the later record for a number wins |
| Screening.LoadExisting | data_processing/screening-with-llm.py:156-160 | the loaded dictionary, or empty when the file does not exist; LoadRecordsSpec and LaterRecordWins state it |
| Screening.LaterRecordWins | data_processing/screening-with-llm.py:157-161 | a record not followed by another with its number is what the loaded map holds; an absent file loads as empty |
| Screening.LoadWrittenFile | data_processing/screening-with-llm.py:174-175 | a written file, whose keys are distinct, loads back as itself |
| Screening.SaveFileSpec | data_processing/screening-with-llm.py:163-175 | after a save, loading gives the old map with the number mapped to the new record |
| Screening.SaveFile | data_processing/screening-with-llm.py:163-175 | the file after one save: the upsert of the record into the loaded file; SaveFileSpec states its effect |
| Screening.ResultsFile.SaveResult | data_processing/screening-with-llm.py:163-175 | the results file becomes the upsert of the record into the loaded file |
| Screening.SaveAllSpec | data_processing/screening-with-llm.py:171-175 | saving records one by one gives the loaded map updated with them in order |
| Screening.StoppedRunStaysStopped | data_processing/screening-with-llm.py:241 | once an oracle call fails, the rest of the input changes nothing |
| Screening.ScreenRun | data_processing/screening-with-llm.py:229-243 | the file, prompts and completion flag of the run; ScreenAll computes it, CompletedRun and FailedRun state its outcome |
| Screening.ScreenAll | data_processing/screening-with-llm.py:229-243 | the file, the prompts and the completion flag are those of the run model, skipping the numbers in the file at the start |
| Screening.Analysed | data_processing/screening-with-llm.py:236-239 | the results analysed are exactly those whose number was not in the file at the start |
| Screening.CompletedRun | data_processing/screening-with-llm.py:234-241 | when every analysed result is answered, each is sent once in order and saved once in order |
| Screening.FailedRun | data_processing/screening-with-llm.py:200-209 | when the n-th analysed result fails, the first n are saved, n+1 prompts are sent, and the run stops |
| Screening.NothingStoredAnalysesAll | data_processing/screening-with-llm.py:236-239 | when no number is skipped, every result is analysed |
| Screening.CompletedRunMap | data_processing/screening-with-llm.py:234-241 | a completed run leaves the starting map updated with the new records in order |
| Screening.AnalysedRecordsAvoidSkip | data_processing/screening-with-llm.py:237-239 | no new record has a number that was in the file at the start |
| Screening.LastSaveWins | data_processing/screening-with-llm.py:234-241 | a number analysed several times ends with the record of its last analysis |
| Screening.SkippedKeepTheirRecord | data_processing/screening-with-llm.py:234-240 | numbers in the file at the start keep their starting record |
| Annotation.SaveThenLoad | data_processing/screening-human-annotation.py:44-46 | a saved file loads back as the saved data |
| Annotation.LoadJson | data_processing/screening-human-annotation.py:32-42 | the three accepted shapes and their errors; SaveThenLoad makes it the inverse of SaveJson |
| Annotation.SaveJson | data_processing/screening-human-annotation.py:44-46 | the data as an object with `issues` and `progress`; SaveThenLoad states the round trip |
| Annotation.ParseAction | data_processing/screening-human-annotation.py:70-74 | an answer is accepted exactly when it is `a`, `d`, `s` or `q` |
| Annotation.ValidActions | data_processing/screening-human-annotation.py:70-74 | the actions the prompt yields from the typed answers, asking again after an unaccepted one; ValidActionsFilter and ValidActionsMembers state it |
| Annotation.ValidActionsFilter | data_processing/screening-human-annotation.py:70-74 | the accepted answers of a concatenation are those of each part in order, and one answer yields its action exactly when it is accepted |
| Annotation.ValidActionsMembers | data_processing/screening-human-annotation.py:70-74 | an action is yielded exactly when some typed answer parses to it |
| Annotation.Prompt | data_processing/screening-human-annotation.py:70-74 | the prompt returns the next accepted answer, skipping the others, or nothing when the input runs out |
| Annotation.Apply | data_processing/screening-human-annotation.py:82-85 | one answer applied to an issue; RunAnnotations states its effect |
| Annotation.Run | data_processing/screening-human-annotation.py:59-90 | the session from a cursor; AnnotateIssues computes it, RunKeepsIssues, RunSavesCursor and QuitThenResume state its properties |
| Annotation.AnnotationData.AnnotateIssues | data_processing/screening-human-annotation.py:49-91 | the issues, cursor, saves and outcome after the loop are those of the session model |
| Annotation.RunKeepsIssues | data_processing/screening-human-annotation.py:59-87 | the issue count, order, numbers and titles never change, in the result or in any save; issues before the cursor are untouched |
| Annotation.RunSavesCursor | data_processing/screening-human-annotation.py:76-90 | after each step the saved cursor is the next index; a quit saves the current index, a finished list saves 0, an abort adds no save |
| Annotation.RunAnnotations | data_processing/screening-human-annotation.py:82-85 | each visited issue takes its answer (`a` agrees, `d` disagrees, `s` leaves it), and issues not reached are unchanged |
| Annotation.QuitThenResume | scripts/screening-human-annotation.py:76-90 | quitting and then resuming on the saved data with the remaining answers ends as one uninterrupted session, with the same saves but the quit's |
| Annotation.ResumeFromSavedFile | scripts/screening-human-annotation.py:76-80 | the resumed session starts from the data the quit wrote |

## Left out

- The GitHub client (`get_repo`, `get_issues`, `get_comments`, `get_labels`) is not modelled. The source is a given sequence of issue records, and `create_comment_model`, `create_issue_model` and `fetch_issue_comments` become the record plus a flag saying whether building it succeeds.
- HTTP requests and BeautifulSoup lookups are not modelled. A page is given as its already-extracted sidebar intro text, article and category link texts, each optional.
- The OpenAI calls, the system prompts and their wording are not modelled. Each oracle is a function parameter, and a raised exception is its `None` answer.
- The rapidfuzz `partial_ratio` scorer is a function parameter into 0 to 100, because it is a foreign library.
- `datetime` fields are not modelled, and neither are the classification and screening `confidence` values beyond storing them as reals.
- JSON encoding and file writes are not modelled. Files are values in a map, or an optional record list for the results file. Pydantic validation is modelled only where it decides the outcome: the taxonomy loop's fallback raises (`TaxonomyClassifier.Raises`).
- Console output is not modelled: `print`, `typer.clear` and `typer.echo`.
- The interactive prompt is a sequence of typed answers. Running out of answers stands for the prompt aborting at end of input.
- A batch file is either a whole `Repository` document or unparseable. The model does not express a file that `get_stored_issue_numbers` reads, because every issue has a `number`, but that `Repository.parse_obj` rejects in `load_issues_from_directory`. Both reads accept or reject a file together.
- The `os.listdir` order is not modelled. The results that depend on directory contents do not depend on that order.
- `int()` is modelled on an optionally signed run of ASCII digits. Surrounding whitespace, `_` separators and non-ASCII digits, which Python also accepts, are not.
- `str.lower()` and `str.strip()` are modelled on ASCII only.
- IntegrationDocs.ExtractIntroductionVersion: the version pattern `[\d.]+` is modelled with ASCII digits only (`IsVersionChar`), while Python's `\d` also matches other Unicode decimal digits.
- The classification oracle's answers depend only on the prompt and the attempt number, not on time or earlier issues.
- `data_processing/integration-documentation-classification.py` is not modelled: it only assigns one oracle answer per integration and has no logic of its own.
- The module-level file loading of the taxonomy script is not modelled. The loop starts from the loaded issues.
- A taxonomy issue's title is optional although the script's issue type declares it a string. This keeps the script's both-absent branch reachable.
- `extract_categories` is not modelled beyond stripping each category link's text, because the category section lookup is part of the page parsing.
