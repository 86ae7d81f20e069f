# Versioned GitLab pages: a verified model of the tag resolver

`lightweight_versioned_gitlab_pages.generate` builds an index of a
repository's version tags. For each tag it reads the tag's commit and the
commit's creation time. It then picks the CI job of the commit's last
pipeline whose artifacts are that version's published pages. Finally it
writes a version information file and an index page that link to those
pages.

This project models the deterministic core of that program in Dafny and
proves what it promises:

- `Urls`: the artifact URL of a job, with `external_file/` inserted exactly
  when the base URL is not on the `.gitlab.io` pages domain. Also the default
  pages base URL of a project, and the commit-URL-to-tag-URL rewrite.
- `Resolver`: the pipeline job resolver `get_pipeline_job`.
  - Its scan records every job's `{name: id}` pair.
  - The last successful job that matches the optional name filter wins. The
    sentinels `-1` and `""` stand for "no job".
  - It is modelled as a loop (`ResolveJob`) proved equal to a specification
    function (`Select`). A method writes the result into the mutable
    `TagInfo` object (`GetPipelineJob`).
- `Aggregator`: the tag aggregator `get_project_tags`. For every tag in order
  it makes one new `TagInfo`, or the run aborts with the first failure.
  - `GetProjectTags` is the loop.
  - `Aggregate` is the specification it meets: a fold (`Collect`) over what
    every tag resolves to (`ResolveTag`).
- `Timestamps`: the commit creation time. It is cut at the first `+` and
  parsed with `%Y-%m-%dT%H:%M:%S.%f`. The parse is proved to be the inverse of
  writing a date-time in that layout.
- `Text`: the string primitives the rules above use:
  - Python's `in` on strings (`Contains`) and `str.find` (`FirstIndex`);
  - `re.sub(<literal> + '.*', repl, s)` (`ReplaceToLineEnd`);
  - `str(int)` (`IntToString`).
- `Output`: the per-tag entry of the version information file, and the tag
  base URL of the index page.
- `Entities`: the objects involved.
  - Tags and commits are their attribute dictionaries.
  - Jobs are name, id and status.
  - `TagInfo` is a class whose fields the resolver updates.
  - The project is the data its fetches return. A missing key is a failed
    fetch.

Two behaviours of the code are worth noting:

- The code strips only a `+...` suffix from commit times. A time ending in
  `Z`, or with a negative offset, is not stripped and does not parse, so the
  whole run aborts (`NegativeOffsetDoesNotParse`).
- The code computes the artifact URL against the pages base URL. When no
  base URL is given, that is the default `https://<owner>.gitlab.io/-/<name>`.
  The project's own `web_url` is never used, because its branch in `main`
  cannot be reached (`PagesWebUrl`).

## Model

| member | source | states |
|---|---|---|
| Text.FirstIndex | src/lightweight_versioned_gitlab_pages/generate.py:346-350 | the index found is an occurrence of the pattern with none before it, and no index is found only when the pattern occurs nowhere |
| Text.ReplaceToLineEnd | src/lightweight_versioned_gitlab_pages/generate.py:346-350 | `re.sub(<literal> + '.*', repl, s)`: every occurrence of the literal is replaced, with the rest of its line, by `repl`; its meaning on one line is stated by `Text.ReplaceToLineEndOnOneLine` |
| Text.IntToString | src/lightweight_versioned_gitlab_pages/generate.py:237-246 | `str(job_id)`: never empty; it reads back as the id (`Text.NatToStringRoundTrip`) and distinct ids give distinct strings (`Text.IntToStringInjective`) |
| Text.ContainsIff | src/lightweight_versioned_gitlab_pages/generate.py:242 | `p in s` holds exactly when `s.find(p)` finds an index |
| Text.MissingCharacterExcludesOccurrence | src/lightweight_versioned_gitlab_pages/generate.py:242 | a pattern holding a character the string lacks is not in the string |
| Text.ReplaceToLineEndOnOneLine | src/lightweight_versioned_gitlab_pages/generate.py:346-350 | on one line, `re.sub(pat + '.*', repl, s)` keeps the text before the first occurrence of `pat` and replaces the rest by `repl`; a line without `pat` is unchanged |
| Text.NatToStringRoundTrip | src/lightweight_versioned_gitlab_pages/generate.py:237-246 | the decimal digits written for a job id read back as that id |
| Text.IntToStringInjective | src/lightweight_versioned_gitlab_pages/generate.py:237-246 | distinct integers are written as distinct strings |
| Text.ZeroPadRoundTrip | src/lightweight_versioned_gitlab_pages/generate.py:160 | a number below 10^w written in w digits reads back as itself |
| Text.DigitsZeroPadRoundTrip | src/lightweight_versioned_gitlab_pages/generate.py:160 | a digit string rewritten in its own width is itself |
| Text.DigitsValueShift | src/lightweight_versioned_gitlab_pages/generate.py:160 | appending k zeros multiplies the value read by 10^k |
| Text.ZeroPadShift | src/lightweight_versioned_gitlab_pages/generate.py:160 | a multiple of 10^j written in w + j digits is the multiplier written in w digits followed by j zeros |
| Text.ZeroPadOfMultiple | src/lightweight_versioned_gitlab_pages/generate.py:160 | a number divisible by 10^j written in w + j digits ends in j zeros, after the quotient's w digits |
| Timestamps.ParseTimestamp | src/lightweight_versioned_gitlab_pages/generate.py:158-161 | a parsed value is a valid date-time and the text has the format's layout |
| Timestamps.ParseFormatRoundTrip | src/lightweight_versioned_gitlab_pages/generate.py:158-161 | every valid date-time written in the format parses back to itself |
| Timestamps.FormatParseRoundTrip | src/lightweight_versioned_gitlab_pages/generate.py:158-161 | a parsable text with upper-case 'T' and six fraction digits is exactly how its value is written |
| Timestamps.FractionIsPaddedOnTheRight | src/lightweight_versioned_gitlab_pages/generate.py:160 | `%f` reads 1-6 digits as a fraction: the microseconds are the digits times 10^(6-count) |
| Timestamps.TrailingZerosKeepFields | src/lightweight_versioned_gitlab_pages/generate.py:160 | leaving out trailing zero fraction digits (keeping at least one) does not change the parsed value |
| Timestamps.ShortFractionRoundTrip | src/lightweight_versioned_gitlab_pages/generate.py:158-161 | a valid date-time whose microseconds are a multiple of 10^(6-k), written with only k = 1..6 fraction digits, parses back to itself |
| Timestamps.StripOffset | src/lightweight_versioned_gitlab_pages/generate.py:159 | `re.sub(r'\+.*', '', raw)`; its meaning on one line is stated by `Timestamps.StripOffsetKeepsPrefix` |
| Timestamps.ParseCreatedAt | src/lightweight_versioned_gitlab_pages/generate.py:158-161 | the strip followed by the parse; `Timestamps.PositiveOffsetIsDiscarded` and `Timestamps.NegativeOffsetDoesNotParse` state what it gives |
| Timestamps.StripOffsetKeepsPrefix | src/lightweight_versioned_gitlab_pages/generate.py:159 | on one line the offset strip keeps exactly the text before the first '+', and the result holds no '+' |
| Timestamps.PositiveOffsetIsDiscarded | src/lightweight_versioned_gitlab_pages/generate.py:158-161 | a time written as "<date-time>+<offset>" parses to the date-time, whatever the offset |
| Timestamps.NegativeOffsetDoesNotParse | src/lightweight_versioned_gitlab_pages/generate.py:158-161 | a time with a '-' offset keeps it and does not parse |
| Entities.TagInfo.constructor | src/lightweight_versioned_gitlab_pages/generate.py:106-113 | a new record holds the given tag, commit and time, job id -1, pages URL "" and no job entries |
| Urls.ExternalSegmentIffOffPagesDomain | src/lightweight_versioned_gitlab_pages/generate.py:237-248 | the URL is base + `/-/jobs/<id>/artifacts/external_file/<folder>/<file>` exactly when the base lacks `.gitlab.io`, and the same without `external_file/` exactly when it has it |
| Urls.ArtifactUrl | src/lightweight_versioned_gitlab_pages/generate.py:218-248 | `get_artifact_url`; its meaning is stated by `Urls.ExternalSegmentIffOffPagesDomain` and `Urls.ArtifactUrlIdentifiesJob` |
| Urls.ArtifactPathIdentifiesJob | src/lightweight_versioned_gitlab_pages/generate.py:237-246 | artifact paths of different job ids differ |
| Urls.ArtifactUrlIdentifiesJob | src/lightweight_versioned_gitlab_pages/generate.py:218-248 | two artifact URLs on the same base are equal only for the same job id |
| Urls.TestArtifactPath | tests/test_generate.py:40-50 | the artifact path of job 1234, folder `public`, file `index.html` on the pages domain is `/-/jobs/1234/artifacts/public/index.html` |
| Urls.TestUrlIsOnPagesDomain | tests/test_generate.py:40-50 | the test's base URL contains `.gitlab.io`, and its URL for job 1234 is the base followed by `/-/jobs/1234/artifacts/public/index.html` |
| Urls.OtherUrlIsOffPagesDomain | src/lightweight_versioned_gitlab_pages/generate.py:242 | a self-hosted base URL does not contain `.gitlab.io`, so its artifact URL gets `external_file/` |
| Urls.DefaultPagesBaseUrlIsOnPagesDomain | src/lightweight_versioned_gitlab_pages/generate.py:397-401 | the default pages URL always contains `.gitlab.io`, so its artifact URLs never get `external_file/` |
| Urls.DefaultPagesBaseUrl | src/lightweight_versioned_gitlab_pages/generate.py:397-401 | `https://{owner}.gitlab.io/-/{name}`; that it is on the pages domain is stated by `Urls.DefaultPagesBaseUrlIsOnPagesDomain` |
| Urls.PagesWebUrl | src/lightweight_versioned_gitlab_pages/generate.py:397-406 | a given base URL is used as is; otherwise the result is `DefaultPagesBaseUrl` of the project's `namespace.name` and `name`, which is on the pages domain; it fails exactly when no base URL is given and one of those two attributes is missing or not a string |
| Urls.CommitSegmentNotBefore | src/lightweight_versioned_gitlab_pages/generate.py:346-350 | in "<project>/-/commit/<sha>" with no "/-/" in the project URL, the commit segment does not start inside the project URL |
| Urls.TagBaseUrlOfCommitUrl | src/lightweight_versioned_gitlab_pages/generate.py:346-350 | the rewrite turns "<project>/-/commit/<sha>" into "<project>/-/tags/" |
| Urls.TagBaseUrl | src/lightweight_versioned_gitlab_pages/generate.py:346-350 | the commit-URL rewrite; what it gives for a commit page is stated by `Urls.TagBaseUrlOfCommitUrl` |
| Resolver.LastQualifying | src/lightweight_versioned_gitlab_pages/generate.py:199-205 | the index found is of a successful job with the filtered name and no later job qualifies; none is found only when no job qualifies |
| Resolver.Qualifies | src/lightweight_versioned_gitlab_pages/generate.py:202-204 | the job succeeded and, when a name filter is set, has that name; `Resolver.LastQualifying` and `Resolver.SelectPicksLastQualifying` state what the filter selects |
| Resolver.LaterMatchOverrides | src/lightweight_versioned_gitlab_pages/generate.py:199-205 | for a pipeline split in two, the winner is the second part's if it has one, else the first part's |
| Resolver.Entries | src/lightweight_versioned_gitlab_pages/generate.py:199-200 | one `{name: id}` entry per job, in pipeline order |
| Resolver.SelectPicksLastQualifying | src/lightweight_versioned_gitlab_pages/generate.py:192-213 | the job id is -1 exactly when no job qualifies, and the URL is then ""; otherwise the id is that of a qualifying job with no qualifying job after it, and the URL is that job's artifact URL for `public/index.html` |
| Resolver.Select | src/lightweight_versioned_gitlab_pages/generate.py:192-211 | the winner's id and artifact URL, or the sentinels; its meaning is stated by `Resolver.SelectPicksLastQualifying` and `Resolver.LaterMatchOverrides` |
| Resolver.SelectStep | src/lightweight_versioned_gitlab_pages/generate.py:202-211 | one more job takes over the selection if it qualifies and leaves it unchanged otherwise |
| Resolver.ResolveJob | src/lightweight_versioned_gitlab_pages/generate.py:192-211 | the scan's job list has one entry per job in order, and its job id and pages URL are the selection of the last qualifying job |
| Resolver.LastPipelineJobs | src/lightweight_versioned_gitlab_pages/generate.py:196-199 | the fetch succeeds exactly when the commit's `last_pipeline.id` is an integer naming a pipeline of the project, and then gives that pipeline's jobs; otherwise it fails with the read's failure or `PipelineNotFound` of that id |
| Resolver.GetPipelineJob | src/lightweight_versioned_gitlab_pages/generate.py:176-215 | the record's entries, job id and pages URL become those of the last pipeline's jobs; its tag, commit and time are unchanged; a failed fetch changes nothing |
| Resolver.LaterDeploymentWins | src/lightweight_versioned_gitlab_pages/generate.py:199-205 | of two successful deployments, the later is selected |
| Resolver.FailedRerunDoesNotWin | src/lightweight_versioned_gitlab_pages/generate.py:199-205 | a later failed job does not displace an earlier successful one |
| Resolver.OtherJobNameIgnored | src/lightweight_versioned_gitlab_pages/generate.py:199-205 | a successful job with another name is not selected |
| Aggregator.ResolveTag | src/lightweight_versioned_gitlab_pages/generate.py:153-169 | the loop body for one tag; its result is stated by `Aggregator.ResolvedRecordComesFromTag` and `Aggregator.SentinelsAgree`, its failures by `Aggregator.BadTimestampAborts` |
| Aggregator.ResolvedRecordComesFromTag | src/lightweight_versioned_gitlab_pages/generate.py:153-169 | a resolved record holds the tag, the commit its id names, that commit's parsed time, and the entries and selection of the commit's last pipeline |
| Aggregator.Collect | src/lightweight_versioned_gitlab_pages/generate.py:152-173 | a successful run has one record per tag |
| Aggregator.CollectSucceedsIffEveryStep | src/lightweight_versioned_gitlab_pages/generate.py:152-173 | a run succeeds exactly when every tag's step does, and then record i is step i's |
| Aggregator.CollectStopsAtFirstFailure | src/lightweight_versioned_gitlab_pages/generate.py:152-173 | when steps before n succeed and step n fails, the run ends with step n's failure |
| Aggregator.CollectFailsWithFirstFailure | src/lightweight_versioned_gitlab_pages/generate.py:152-173 | a failed run's failure is that of a step whose predecessors all succeed |
| Aggregator.Steps | src/lightweight_versioned_gitlab_pages/generate.py:152-173 | one step per tag |
| Aggregator.StepsResolveEachTag | src/lightweight_versioned_gitlab_pages/generate.py:152-173 | step i is what tag i resolves to |
| Aggregator.Aggregate | src/lightweight_versioned_gitlab_pages/generate.py:152-173 | an empty tag list gives an empty record list |
| Aggregator.AggregateSucceedsIffEveryTagResolves | src/lightweight_versioned_gitlab_pages/generate.py:152-173 | the run succeeds exactly when every tag resolves; it then returns one record per tag, record i being tag i's |
| Aggregator.AggregateKeepsTagOrder | src/lightweight_versioned_gitlab_pages/generate.py:152-173 | record i of a successful run is for tag i |
| Aggregator.FirstFailureIsTheOutcome | src/lightweight_versioned_gitlab_pages/generate.py:152-173 | the first tag that does not resolve decides the outcome, whatever the later tags are |
| Aggregator.FailureComesFromFirstFailingTag | src/lightweight_versioned_gitlab_pages/generate.py:152-173 | a failed run reports the failure of a tag whose predecessors all resolve |
| Aggregator.BadTimestampAborts | src/lightweight_versioned_gitlab_pages/generate.py:158-161 | the first tag whose commit time does not parse aborts the whole run with that text |
| Aggregator.SentinelsAgree | src/lightweight_versioned_gitlab_pages/generate.py:192-215 | in every record the job id is -1 exactly when the pages URL is empty, and is never below -1 |
| Aggregator.NewTagInfo | src/lightweight_versioned_gitlab_pages/generate.py:153-169 | the loop body for tag n: a new `TagInfo` holding the tag's record, or the tag's failure |
| Aggregator.GetProjectTags | src/lightweight_versioned_gitlab_pages/generate.py:136-173 | one new, distinct `TagInfo` per tag, in order, whose fields are the run's records; or the run's failure |
| Output.VersionEntry | src/lightweight_versioned_gitlab_pages/generate.py:262-267 | the entry's keys are the tag's keys plus `pages_url`, `job_id`, `commit_info`; every other tag attribute is kept |
| Output.VersionEntryReadsBack | src/lightweight_versioned_gitlab_pages/generate.py:264-266 | the entry's `job_id`, `pages_url` and `commit_info` read back as the record's job id, pages URL and commit attributes |
| Output.VersionEntrySentinelsAgree | src/lightweight_versioned_gitlab_pages/generate.py:262-267 | in a resolved tag's entry, `job_id` is -1 exactly when `pages_url` is empty |
| Output.VersionInfo | src/lightweight_versioned_gitlab_pages/generate.py:260-267 | one entry per tag, in the tag list's order, each the entry of that tag's current record |
| Output.IndexTagBaseUrl | src/lightweight_versioned_gitlab_pages/generate.py:346-350 | an empty tag list fails; a result needs the first tag's commit `web_url` to be a string |
| Output.IndexTagBaseUrlOfCommitPage | src/lightweight_versioned_gitlab_pages/generate.py:346-350 | when the first tag's commit page is "<project>/-/commit/<sha>", tags link under "<project>/-/tags/" |

## Left out

- Argument parsing, logging, the Jinja2 template and the file and directory I/O are not modelled. They are command-line plumbing and foreign library calls. This covers `parse_arguments`, `parser_valid_file`, `main`, `get_template_file`, `create_html_files` apart from its tag-URL rewrite, `save_file` and `create_output_directory`.
- `json.dumps` with sorted keys and indentation is not modelled. `VersionInfo` stops at the list of entries that would be serialised.
- The python-gitlab client (`get_project` and the tag, commit, pipeline and job listings) is modelled as data. The tag list is a sequence. Commits, pipelines and their jobs are maps in `Project`, and a missing key stands for a failed fetch. The paging of the listings and network errors other than "not found" are not modelled.
- Urls.PagesWebUrl: a `namespace.name` or `name` project attribute that is not a string fails with `BadField`; Python's `format` would write it out with `str()`.
- Tag and commit attributes read with a value of the wrong kind (say a number where a string id is expected) are reported as `BadField`. Python would fail later, or use the value as is.
- `Entities.Job`: job ids are natural numbers, as on the service. A job whose id is -1 would be indistinguishable from the sentinel in Python; the model cannot express one.
- `Timestamps.ParseTimestamp`: only the fixed-width form of `%Y-%m-%dT%H:%M:%S.%f` is accepted: a four-digit year, two digits each for month, day, hour, minute and second, a 'T' or 't', and 1-6 fraction digits. Python's `strptime` also accepts fields written with fewer digits. Commit times from the service always have the fixed-width form.
- `Timestamps.ParseTimestamp`: leap seconds are rejected as `datetime` does. The model does not distinguish `strptime`'s exceptions: every parse failure is `BadTimestamp`.
- `Text.ReplaceToLineEnd`: only patterns of the form `<literal>.*` are modelled, which are the two the program uses. The multi-line behaviour follows `re.sub`, where '.' stops at a line break.
- `Urls.TestUrlIsOnPagesDomain`: the test's full expected URL is stated as the base URL followed by the expected path, not as one string literal.
- The order in which a failed `TagInfo` construction evaluates its arguments is modelled as commit fetch, then the creation-time parse, then the pipeline fetch. Python evaluates the keyword arguments in that order too.
