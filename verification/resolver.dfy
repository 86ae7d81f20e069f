/**
 * The pipeline job resolver: which job of a tag's last pipeline is that
 * tag's published deployment. Every job is recorded; among the successful
 * jobs whose name matches the filter, the last one in the pipeline's order
 * wins, and its artifact URL becomes the tag's pages URL.
 */
module Resolver {
  import opened Wrappers
  import opened Entities
  import opened Urls

  /** The status of a job that finished well. */
  const SuccessStatus := "success"

  /** The job id that means "no job qualified". */
  const NoJob := -1

  /** The artifact folder and file every deployment publishes. */
  const PagesFolder := "public"
  const PagesIndexFile := "index.html"

  /** A job that may be the deployment: it succeeded, and its name matches the filter when one is set. */
  predicate Qualifies(job: Job, jobName: Option<string>)
  {
    job.status == SuccessStatus && (jobName.None? || job.name == jobName.value)
  }

  /** The index of the last qualifying job, if any. */
  function LastQualifying(jobs: seq<Job>, jobName: Option<string>): (r: Option<nat>)
    ensures r.Some? ==> r.value < |jobs| && Qualifies(jobs[r.value], jobName)
    ensures r.Some? ==> forall k :: r.value < k < |jobs| ==> !Qualifies(jobs[k], jobName)
    ensures r.None? ==> forall k :: 0 <= k < |jobs| ==> !Qualifies(jobs[k], jobName)
  {
    if jobs == [] then None
    else if Qualifies(jobs[|jobs| - 1], jobName) then Some(|jobs| - 1)
    else LastQualifying(jobs[..|jobs| - 1], jobName)
  }

  /**
   * A later qualifying job overrides every earlier one: the winner of a
   * pipeline split in two is the second part's winner if it has one, and the
   * first part's otherwise.
   */
  lemma LaterMatchOverrides(earlier: seq<Job>, later: seq<Job>, jobName: Option<string>)
    ensures LastQualifying(earlier + later, jobName) ==
              match LastQualifying(later, jobName)
              case Some(k) => Some(|earlier| + k)
              case None => LastQualifying(earlier, jobName)
  {
    var all := earlier + later;
    assert forall k :: 0 <= k < |later| ==> all[|earlier| + k] == later[k];
    assert forall k :: 0 <= k < |earlier| ==> all[k] == earlier[k];
    match LastQualifying(later, jobName)
    case Some(k) =>
      assert Qualifies(all[|earlier| + k], jobName);
    case None =>
      match LastQualifying(earlier, jobName)
      case Some(k) =>
        assert Qualifies(all[k], jobName);
      case None =>
  }

  /** The `{name: id}` entry recorded for a job. */
  function EntryOf(job: Job): JobEntry
  {
    map[job.name := job.id]
  }

  /** One entry per job, in the pipeline's order. */
  function Entries(jobs: seq<Job>): (entries: seq<JobEntry>)
    ensures |entries| == |jobs|
    ensures forall i :: 0 <= i < |jobs| ==> entries[i] == EntryOf(jobs[i])
  {
    seq(|jobs|, i requires 0 <= i < |jobs| => EntryOf(jobs[i]))
  }

  /** The selected job id and pages URL of a tag. */
  datatype Selection = Selection(jobId: int, pagesUrl: string)

  /** The selection a pipeline's jobs call for: the last qualifying job and its artifact URL, or the sentinels. */
  function Select(jobs: seq<Job>, jobName: Option<string>, webUrl: string): Selection
  {
    match LastQualifying(jobs, jobName)
    case None => Selection(NoJob, "")
    case Some(k) => Selection(jobs[k].id, ArtifactUrl(webUrl, jobs[k].id, PagesFolder, PagesIndexFile))
  }

  /**
   * What a selection means: the sentinels -1 and "" exactly when no job
   * qualifies; otherwise the id of a qualifying job that no later job
   * displaces, and the artifact URL of that job.
   */
  lemma SelectPicksLastQualifying(jobs: seq<Job>, jobName: Option<string>, webUrl: string)
    ensures var sel := Select(jobs, jobName, webUrl);
      sel.jobId == NoJob <==> forall k :: 0 <= k < |jobs| ==> !Qualifies(jobs[k], jobName)
    ensures var sel := Select(jobs, jobName, webUrl);
      sel.jobId == NoJob ==> sel.pagesUrl == ""
    ensures var sel := Select(jobs, jobName, webUrl);
      sel.jobId != NoJob ==>
        exists k :: 0 <= k < |jobs| && jobs[k].id == sel.jobId && Qualifies(jobs[k], jobName)
                    && forall later :: k < later < |jobs| ==> !Qualifies(jobs[later], jobName)
    ensures var sel := Select(jobs, jobName, webUrl);
      sel.jobId != NoJob ==> sel.pagesUrl == ArtifactUrl(webUrl, sel.jobId, PagesFolder, PagesIndexFile)
  {
    match LastQualifying(jobs, jobName)
    case None =>
    case Some(k) =>
      assert Qualifies(jobs[k], jobName);
  }

  /** Extending a pipeline by one job: a qualifying job takes over, any other leaves the selection. */
  lemma SelectStep(jobs: seq<Job>, i: nat, jobName: Option<string>, webUrl: string)
    requires i < |jobs|
    ensures Select(jobs[..i + 1], jobName, webUrl)
         == if Qualifies(jobs[i], jobName)
            then Selection(jobs[i].id, ArtifactUrl(webUrl, jobs[i].id, PagesFolder, PagesIndexFile))
            else Select(jobs[..i], jobName, webUrl)
  {
    assert jobs[..i + 1][..i] == jobs[..i];
  }

  /**
   * The scan of `get_pipeline_job`: record every job's entry and keep
   * overwriting the winner with each qualifying job.
   */
  method ResolveJob(jobs: seq<Job>, jobName: Option<string>, webUrl: string)
    returns (jobId: int, pagesUrl: string, jobIds: seq<JobEntry>)
    ensures |jobIds| == |jobs|
    ensures forall i :: 0 <= i < |jobs| ==> jobIds[i] == map[jobs[i].name := jobs[i].id]
    ensures Selection(jobId, pagesUrl) == Select(jobs, jobName, webUrl)
  {
    pagesUrl := "";
    jobId := NoJob;
    jobIds := [];
    for i := 0 to |jobs|
      invariant |jobIds| == i
      invariant forall k :: 0 <= k < i ==> jobIds[k] == EntryOf(jobs[k])
      invariant Selection(jobId, pagesUrl) == Select(jobs[..i], jobName, webUrl)
    {
      var job := jobs[i];
      jobIds := jobIds + [map[job.name := job.id]];
      if job.status == SuccessStatus && (jobName.None? || job.name == jobName.value) {
        jobId := job.id;
        pagesUrl := ArtifactUrl(webUrl, jobId, PagesFolder, PagesIndexFile);
      }
      SelectStep(jobs, i, jobName, webUrl);
    }
    assert jobs[..|jobs|] == jobs;
  }

  /**
   * The jobs of the commit's last pipeline: `commit.last_pipeline['id']`
   * names the pipeline, which must exist among the known pipelines.
   */
  function LastPipelineJobs(commit: Commit, project: Project): (r: Result<seq<Job>, Failure>)
    ensures var id := AsInt(GetIn(commit.attributes, "last_pipeline", "id"), "last_pipeline.id");
      r.Success? <==> id.Success? && id.value in project.pipelines
    ensures var id := AsInt(GetIn(commit.attributes, "last_pipeline", "id"), "last_pipeline.id");
      r.Success? ==> r.value == project.pipelines[id.value]
    ensures var id := AsInt(GetIn(commit.attributes, "last_pipeline", "id"), "last_pipeline.id");
      && (id.Failure? ==> r == Failure(id.error))
      && (id.Success? && id.value !in project.pipelines ==> r == Failure(PipelineNotFound(id.value)))
  {
    match AsInt(GetIn(commit.attributes, "last_pipeline", "id"), "last_pipeline.id")
    case Failure(e) => Failure(e)
    case Success(id) => if id in project.pipelines then Success(project.pipelines[id]) else Failure(PipelineNotFound(id))
  }

  /**
   * `get_pipeline_job`: fetch the tag's last pipeline, resolve its jobs, and
   * store the job id, the pages URL and the job list in the record. The
   * tag, commit and creation time stay as they were; when the fetch fails
   * nothing changes.
   */
  method GetPipelineJob(project: Project, tagInfo: TagInfo, jobName: Option<string>, webUrl: string)
    returns (outcome: Outcome<Failure>)
    modifies tagInfo
    ensures tagInfo.tag == old(tagInfo.tag)
    ensures tagInfo.commit == old(tagInfo.commit)
    ensures tagInfo.createdAt == old(tagInfo.createdAt)
    ensures match LastPipelineJobs(old(tagInfo.commit), project)
            case Failure(e) => outcome == Fail(e) && unchanged(tagInfo)
            case Success(jobs) =>
              && outcome == Pass
              && tagInfo.jobIds == Entries(jobs)
              && Selection(tagInfo.jobId, tagInfo.pagesUrl) == Select(jobs, jobName, webUrl)
  {
    var jobs := LastPipelineJobs(tagInfo.commit, project);
    if jobs.Failure? {
      return Fail(jobs.error);
    }
    var jobId, pagesUrl, jobIds := ResolveJob(jobs.value, jobName, webUrl);
    tagInfo.jobId := jobId;
    tagInfo.jobIds := jobIds;
    tagInfo.pagesUrl := pagesUrl;
    outcome := Pass;
  }

  /** Two successful deployments of the job: the later one is selected. */
  lemma LaterDeploymentWins(webUrl: string)
    ensures Select([Job("pages", 1, "success"), Job("pages", 2, "success")], Some("pages"), webUrl).jobId == 2
  {
  }

  /** A failed re-run does not displace the successful deployment before it. */
  lemma FailedRerunDoesNotWin(webUrl: string)
    ensures Select([Job("pages", 1, "success"), Job("pages", 2, "failed")], Some("pages"), webUrl).jobId == 1
  {
  }

  /** A successful job of another name is not the deployment. */
  lemma OtherJobNameIgnored(webUrl: string)
    ensures Select([Job("pages", 1, "success"), Job("test", 2, "success")], Some("pages"), webUrl).jobId == 1
  {
  }
}
