/**
 * The tag aggregator, `get_project_tags`: for every tag of the project, in
 * the order the tag list gives them, fetch the tag's commit, read its
 * creation time, resolve the deployment job of its last pipeline, and
 * append the finished record. Any fetch, lookup or parse that fails aborts
 * the whole run, and no list is returned.
 */
module Aggregator {
  import opened Wrappers
  import opened Timestamps
  import opened Entities
  import opened Urls
  import opened Resolver

  /** The id of the tag's commit, `tag.attributes['commit']['id']`. */
  function CommitId(tag: Tag): Result<string, Failure>
  {
    AsString(GetIn(tag.attributes, "commit", "id"), "commit.id")
  }

  /** The raw creation time of the tag's commit, `tag.commit['created_at']`. */
  function RawCreatedAt(tag: Tag): Result<string, Failure>
  {
    AsString(GetIn(tag.attributes, "commit", "created_at"), "commit.created_at")
  }

  /**
   * The record one tag turns into, or the failure that aborts the run. The
   * steps fail in the order the generator takes them: commit id, commit
   * fetch, creation time, pipeline fetch.
   */
  function ResolveTag(project: Project, tag: Tag, jobName: Option<string>, webUrl: string): (r: Result<TagRecord, Failure>)
  {
    match CommitId(tag)
    case Failure(e) => Failure(e)
    case Success(sha) =>
      if sha !in project.commits then Failure(CommitNotFound(sha))
      else
        var commit := project.commits[sha];
        match RawCreatedAt(tag)
        case Failure(e) => Failure(e)
        case Success(raw) =>
          match ParseCreatedAt(raw)
          case None => Failure(BadTimestamp(raw))
          case Some(createdAt) =>
            match LastPipelineJobs(commit, project)
            case Failure(e) => Failure(e)
            case Success(jobs) =>
              var selection := Select(jobs, jobName, webUrl);
              Success(TagRecord(tag, commit, createdAt, selection.jobId, selection.pagesUrl, Entries(jobs)))
  }

  /**
   * A resolved record holds the tag itself, the commit its id names, the
   * parsed creation time of that commit, and the entries and selection of
   * the jobs of that commit's last pipeline.
   */
  lemma ResolvedRecordComesFromTag(project: Project, tag: Tag, jobName: Option<string>, webUrl: string)
    requires ResolveTag(project, tag, jobName, webUrl).Success?
    ensures var record := ResolveTag(project, tag, jobName, webUrl).value;
      && record.tag == tag
      && CommitId(tag).Success? && CommitId(tag).value in project.commits
      && record.commit == project.commits[CommitId(tag).value]
      && RawCreatedAt(tag).Success? && ParseCreatedAt(RawCreatedAt(tag).value) == Some(record.createdAt)
    ensures var record := ResolveTag(project, tag, jobName, webUrl).value;
      && LastPipelineJobs(record.commit, project).Success?
      && record.jobIds == Entries(LastPipelineJobs(record.commit, project).value)
      && Selection(record.jobId, record.pagesUrl) == Select(LastPipelineJobs(record.commit, project).value, jobName, webUrl)
  {
  }

  /**
   * The outcome of a run whose tags resolved, in order, to `steps`: all the
   * records, or the first failure. The run stops at that failure: nothing
   * after it is looked at.
   */
  function Collect(steps: seq<Result<TagRecord, Failure>>): (r: Result<seq<TagRecord>, Failure>)
    ensures r.Success? ==> |r.value| == |steps|
  {
    if steps == [] then Success([])
    else
      match Collect(steps[..|steps| - 1])
      case Failure(e) => Failure(e)
      case Success(records) =>
        match steps[|steps| - 1]
        case Failure(e) => Failure(e)
        case Success(record) => Success(records + [record])
  }

  /** A run succeeds exactly when every step does, and then its records are the steps' records in order. */
  lemma {:induction false} CollectSucceedsIffEveryStep(steps: seq<Result<TagRecord, Failure>>)
    ensures Collect(steps).Success? <==> forall i :: 0 <= i < |steps| ==> steps[i].Success?
    ensures Collect(steps).Success? ==> forall i :: 0 <= i < |steps| ==> Collect(steps).value[i] == steps[i].value
  {
    if steps != [] {
      var init := steps[..|steps| - 1];
      CollectSucceedsIffEveryStep(init);
      assert forall i :: 0 <= i < |init| ==> init[i] == steps[i];
    }
  }

  /** A run whose steps before `n` succeed and whose step `n` fails ends with that failure. */
  lemma {:induction false} CollectStopsAtFirstFailure(steps: seq<Result<TagRecord, Failure>>, n: nat)
    requires n < |steps|
    requires forall j :: 0 <= j < n ==> steps[j].Success?
    requires steps[n].Failure?
    ensures Collect(steps) == Failure(steps[n].error)
    decreases |steps|
  {
    var init := steps[..|steps| - 1];
    if n < |init| {
      assert forall j :: 0 <= j <= n ==> init[j] == steps[j];
      CollectStopsAtFirstFailure(init, n);
    } else {
      assert forall j :: 0 <= j < |init| ==> init[j] == steps[j];
      CollectSucceedsIffEveryStep(init);
    }
  }

  /** The failure of a failed run is that of a step all of whose predecessors succeed. */
  lemma {:induction false} CollectFailsWithFirstFailure(steps: seq<Result<TagRecord, Failure>>)
    requires Collect(steps).Failure?
    ensures exists i :: 0 <= i < |steps| && (forall j :: 0 <= j < i ==> steps[j].Success?)
                        && steps[i] == Failure(Collect(steps).error)
  {
    var init := steps[..|steps| - 1];
    assert forall i :: 0 <= i < |init| ==> init[i] == steps[i];
    if Collect(init).Failure? {
      CollectFailsWithFirstFailure(init);
    } else {
      CollectSucceedsIffEveryStep(init);
    }
  }

  /** What every tag resolves to, in the tags' order. */
  function Steps(project: Project, tags: seq<Tag>, jobName: Option<string>, webUrl: string)
    : (steps: seq<Result<TagRecord, Failure>>)
    ensures |steps| == |tags|
  {
    if tags == [] then []
    else Steps(project, tags[..|tags| - 1], jobName, webUrl) + [ResolveTag(project, tags[|tags| - 1], jobName, webUrl)]
  }

  /** Step `i` is what tag `i` resolves to. */
  lemma {:induction false} StepsResolveEachTag(project: Project, tags: seq<Tag>, jobName: Option<string>, webUrl: string)
    ensures forall i :: 0 <= i < |tags| ==> Steps(project, tags, jobName, webUrl)[i] == ResolveTag(project, tags[i], jobName, webUrl)
  {
    if tags != [] {
      var init := tags[..|tags| - 1];
      StepsResolveEachTag(project, init, jobName, webUrl);
      assert forall i :: 0 <= i < |init| ==> init[i] == tags[i];
    }
  }

  /** The outcome of the whole run: the records of all tags in order, or the failure of the first tag that does not resolve. */
  function Aggregate(project: Project, tags: seq<Tag>, jobName: Option<string>, webUrl: string)
    : (r: Result<seq<TagRecord>, Failure>)
    ensures tags == [] ==> r == Success([])
  {
    Collect(Steps(project, tags, jobName, webUrl))
  }

  /**
   * The run succeeds exactly when every tag resolves; it then returns one
   * record per tag, record `i` being tag `i`'s, so an empty tag list gives
   * an empty list.
   */
  lemma AggregateSucceedsIffEveryTagResolves(project: Project, tags: seq<Tag>, jobName: Option<string>, webUrl: string)
    ensures var r := Aggregate(project, tags, jobName, webUrl);
      r.Success? <==> forall i :: 0 <= i < |tags| ==> ResolveTag(project, tags[i], jobName, webUrl).Success?
    ensures var r := Aggregate(project, tags, jobName, webUrl);
      r.Success? ==> |r.value| == |tags|
                     && forall i :: 0 <= i < |tags| ==> r.value[i] == ResolveTag(project, tags[i], jobName, webUrl).value
  {
    StepsResolveEachTag(project, tags, jobName, webUrl);
    CollectSucceedsIffEveryStep(Steps(project, tags, jobName, webUrl));
  }

  /** Record `i` of a successful run is that of tag `i`: the list mirrors the tag list. */
  lemma AggregateKeepsTagOrder(project: Project, tags: seq<Tag>, jobName: Option<string>, webUrl: string)
    requires Aggregate(project, tags, jobName, webUrl).Success?
    ensures var records := Aggregate(project, tags, jobName, webUrl).value;
      |records| == |tags| && forall i :: 0 <= i < |tags| ==> records[i].tag == tags[i]
  {
    AggregateSucceedsIffEveryTagResolves(project, tags, jobName, webUrl);
    forall i | 0 <= i < |tags| ensures Aggregate(project, tags, jobName, webUrl).value[i].tag == tags[i] {
      ResolvedRecordComesFromTag(project, tags[i], jobName, webUrl);
    }
  }

  /**
   * A run fails with the failure of the first tag that does not resolve:
   * when the tags before position `n` resolve and tag `n` does not, its
   * failure is the outcome, whatever the later tags are.
   */
  lemma FirstFailureIsTheOutcome(project: Project, tags: seq<Tag>, n: nat, jobName: Option<string>, webUrl: string)
    requires n < |tags|
    requires forall j :: 0 <= j < n ==> ResolveTag(project, tags[j], jobName, webUrl).Success?
    requires ResolveTag(project, tags[n], jobName, webUrl).Failure?
    ensures Aggregate(project, tags, jobName, webUrl) == Failure(ResolveTag(project, tags[n], jobName, webUrl).error)
  {
    StepsResolveEachTag(project, tags, jobName, webUrl);
    CollectStopsAtFirstFailure(Steps(project, tags, jobName, webUrl), n);
  }

  /** Conversely, a failed run reports the failure of a tag all of whose predecessors resolve. */
  lemma FailureComesFromFirstFailingTag(project: Project, tags: seq<Tag>, jobName: Option<string>, webUrl: string)
    requires Aggregate(project, tags, jobName, webUrl).Failure?
    ensures exists i :: 0 <= i < |tags|
              && (forall j :: 0 <= j < i ==> ResolveTag(project, tags[j], jobName, webUrl).Success?)
              && ResolveTag(project, tags[i], jobName, webUrl) == Failure(Aggregate(project, tags, jobName, webUrl).error)
  {
    StepsResolveEachTag(project, tags, jobName, webUrl);
    CollectFailsWithFirstFailure(Steps(project, tags, jobName, webUrl));
  }

  /**
   * A tag whose commit time does not parse aborts the run when every tag
   * before it resolves: no list is returned, only the offending text.
   */
  lemma BadTimestampAborts(project: Project, tags: seq<Tag>, n: nat, jobName: Option<string>, webUrl: string)
    requires n < |tags|
    requires forall j :: 0 <= j < n ==> ResolveTag(project, tags[j], jobName, webUrl).Success?
    requires CommitId(tags[n]).Success? && CommitId(tags[n]).value in project.commits
    requires RawCreatedAt(tags[n]).Success? && ParseCreatedAt(RawCreatedAt(tags[n]).value).None?
    ensures Aggregate(project, tags, jobName, webUrl) == Failure(BadTimestamp(RawCreatedAt(tags[n]).value))
  {
    FirstFailureIsTheOutcome(project, tags, n, jobName, webUrl);
  }

  /**
   * In every record the two sentinels go together: the job id is -1 exactly
   * when the pages URL is empty, and otherwise the id is a real job's.
   */
  lemma SentinelsAgree(project: Project, tag: Tag, jobName: Option<string>, webUrl: string)
    requires ResolveTag(project, tag, jobName, webUrl).Success?
    ensures var record := ResolveTag(project, tag, jobName, webUrl).value;
      (record.jobId == NoJob <==> record.pagesUrl == "") && record.jobId >= NoJob
  {
    var commit := project.commits[CommitId(tag).value];
    var jobs := LastPipelineJobs(commit, project).value;
    match LastQualifying(jobs, jobName)
    case None =>
    case Some(k) =>
      var url := ArtifactUrl(webUrl, jobs[k].id, PagesFolder, PagesIndexFile);
      assert |url| > 0;
  }

  /**
   * The body of the aggregation loop for one tag: fetch its commit, parse
   * the creation time, create the `TagInfo` and let the resolver fill it in.
   */
  method NewTagInfo(project: Project, tags: seq<Tag>, n: nat, jobName: Option<string>, webUrl: string)
    returns (result: Result<TagInfo, Failure>)
    requires n < |tags|
    ensures var step := Steps(project, tags, jobName, webUrl)[n];
      step.Failure? ==> result == Failure(step.error)
    ensures var step := Steps(project, tags, jobName, webUrl)[n];
      step.Success? ==> result.Success? && fresh(result.value) && result.value.Snapshot() == step.value
  {
    StepsResolveEachTag(project, tags, jobName, webUrl);
    var tag := tags[n];
    var sha := CommitId(tag);
    if sha.Failure? {
      return Failure(sha.error);
    }
    if sha.value !in project.commits {
      return Failure(CommitNotFound(sha.value));
    }
    var commit := project.commits[sha.value];
    var raw := RawCreatedAt(tag);
    if raw.Failure? {
      return Failure(raw.error);
    }
    var createdAt := ParseCreatedAt(raw.value);
    if createdAt.None? {
      return Failure(BadTimestamp(raw.value));
    }
    var info := new TagInfo(tag, commit, createdAt.value);
    var outcome := GetPipelineJob(project, info, jobName, webUrl);
    if outcome.Fail? {
      return Failure(outcome.error);
    }
    return Success(info);
  }

  /**
   * `get_project_tags`: one new `TagInfo` per tag, in the tags' order, each
   * holding the record the tag resolves to; or the first failure.
   */
  method GetProjectTags(project: Project, tags: seq<Tag>, jobName: Option<string>, webUrl: string)
    returns (result: Result<seq<TagInfo>, Failure>)
    ensures match Aggregate(project, tags, jobName, webUrl)
            case Failure(e) => result == Failure(e)
            case Success(records) =>
              && result.Success?
              && |result.value| == |records|
              && (forall i :: 0 <= i < |records| ==> fresh(result.value[i]))
              && (forall i :: 0 <= i < |records| ==> result.value[i].Snapshot() == records[i])
              && (forall i, j :: 0 <= i < j < |records| ==> result.value[i] != result.value[j])
  {
    var infos: seq<TagInfo> := [];
    ghost var steps := Steps(project, tags, jobName, webUrl);
    for n := 0 to |tags|
      invariant |infos| == n
      invariant forall i :: 0 <= i < n ==> steps[i].Success? && infos[i].Snapshot() == steps[i].value
      invariant forall i :: 0 <= i < n ==> fresh(infos[i])
      invariant forall i, j :: 0 <= i < j < n ==> infos[i] != infos[j]
    {
      var info := NewTagInfo(project, tags, n, jobName, webUrl);
      if info.Failure? {
        CollectStopsAtFirstFailure(steps, n);
        return Failure(info.error);
      }
      infos := infos + [info.value];
    }
    CollectSucceedsIffEveryStep(steps);
    return Success(infos);
  }
}
