/**
 * The records the generator works on. Tags and commits are the hosting
 * service's objects, seen through their raw attribute dictionaries; jobs are
 * read for their name, id and status; `TagInfo` is the mutable record the
 * generator fills in for each tag.
 */
module Entities {
  import opened Wrappers
  import opened Timestamps

  /** A decoded JSON value, as the service's attribute dictionaries hold them. */
  datatype Json =
    | JNull
    | JBool(b: bool)
    | JInt(i: int)
    | JStr(s: string)
    | JList(items: seq<Json>)
    | JObject(fields: map<string, Json>)

  /** An object's `attributes` dictionary. */
  type Attributes = map<string, Json>

  /** A version tag, as the tag list returns it. */
  datatype Tag = Tag(attributes: Attributes)

  /** A commit, as fetching it by id returns it. */
  datatype Commit = Commit(attributes: Attributes)

  /** A pipeline job: ids are the service's positive job numbers. */
  datatype Job = Job(name: string, id: nat, status: string)

  /**
   * What the generator fetches from the project: its commits by id and the
   * jobs of each of its pipelines by pipeline id, in the order the service
   * lists them. An id that is missing is a fetch that fails.
   */
  datatype Project = Project(commits: map<string, Commit>, pipelines: map<int, seq<Job>>)

  /** The `{job.name: job.id}` dictionary recorded for every job of a pipeline. */
  type JobEntry = map<string, nat>

  /** Why a run aborts: each is an exception the generator lets propagate. */
  datatype Failure =
    | BadField(field: string)         // missing key or attribute, or a value of the wrong kind
    | CommitNotFound(sha: string)     // fetching the tag's commit failed
    | PipelineNotFound(pipeline: int) // fetching the commit's last pipeline failed
    | BadTimestamp(text: string)      // the commit time does not parse
    | NoTags                          // the index page reads the first tag of an empty list

  /** `obj[key]`; `field` names the lookup in the failure. */
  function Get(obj: Attributes, key: string, field: string): (r: Result<Json, Failure>)
  {
    if key in obj then Success(obj[key]) else Failure(BadField(field))
  }

  /** `obj[outer][inner]`, where `obj[outer]` must itself be a dictionary. */
  function GetIn(obj: Attributes, outer: string, inner: string): (r: Result<Json, Failure>)
  {
    var field := outer + "." + inner;
    if outer in obj && obj[outer].JObject? && inner in obj[outer].fields
    then Success(obj[outer].fields[inner])
    else Failure(BadField(field))
  }

  /** A string value read from `field`, or the failure of reading it. */
  function AsString(v: Result<Json, Failure>, field: string): (r: Result<string, Failure>)
  {
    match v
    case Failure(e) => Failure(e)
    case Success(j) => if j.JStr? then Success(j.s) else Failure(BadField(field))
  }

  /** An integer value read from `field`, or the failure of reading it. */
  function AsInt(v: Result<Json, Failure>, field: string): (r: Result<int, Failure>)
  {
    match v
    case Failure(e) => Failure(e)
    case Success(j) => if j.JInt? then Success(j.i) else Failure(BadField(field))
  }

  /** The values a `TagInfo` holds, without the object around them. */
  datatype TagRecord = TagRecord(
    tag: Tag,
    commit: Commit,
    createdAt: DateTime,
    jobId: int,
    pagesUrl: string,
    jobIds: seq<JobEntry>)

  /**
   * The per-tag record. It is created with the tag, its commit and the
   * creation time; the job resolver then fills in the selected job id, the
   * pages URL and the list of all jobs. -1 and "" mean that no job matched.
   */
  class TagInfo {
    var tag: Tag
    var commit: Commit
    var createdAt: DateTime
    var jobId: int
    var pagesUrl: string
    var jobIds: seq<JobEntry>

    constructor (tag: Tag, commit: Commit, createdAt: DateTime)
      ensures this.tag == tag && this.commit == commit && this.createdAt == createdAt
      ensures jobId == -1 && pagesUrl == "" && jobIds == []
    {
      this.tag := tag;
      this.commit := commit;
      this.createdAt := createdAt;
      jobId := -1;
      pagesUrl := "";
      jobIds := [];
    }

    /** The record's current field values. */
    function Snapshot(): TagRecord
      reads this
    {
      TagRecord(tag, commit, createdAt, jobId, pagesUrl, jobIds)
    }
  }
}
