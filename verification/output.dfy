/**
 * What the generator writes out for the tags it collected: one entry per tag
 * in the version information file, and the base URL of the repository's tag
 * pages that the index page links each tag name to.
 */
module Output {
  import opened Wrappers
  import opened Text
  import opened Entities
  import opened Urls
  import opened Resolver
  import opened Aggregator

  /** The keys the generator adds to a tag's attributes. */
  const PagesUrlKey := "pages_url"
  const JobIdKey := "job_id"
  const CommitInfoKey := "commit_info"

  predicate IsAddedKey(k: string)
  {
    k == PagesUrlKey || k == JobIdKey || k == CommitInfoKey
  }

  /**
   * The version-file entry of one tag: a copy of the tag's attributes with
   * its pages URL, job id and the attributes of its commit added; these
   * three replace tag attributes of the same names.
   */
  function VersionEntry(r: TagRecord): (entry: Attributes)
    ensures entry.Keys == r.tag.attributes.Keys + {PagesUrlKey, JobIdKey, CommitInfoKey}
    ensures forall k :: k in r.tag.attributes && !IsAddedKey(k) ==> entry[k] == r.tag.attributes[k]
  {
    r.tag.attributes[PagesUrlKey := JStr(r.pagesUrl)][JobIdKey := JInt(r.jobId)][CommitInfoKey := JObject(r.commit.attributes)]
  }

  /**
   * Reading an entry back gives the record's job id, pages URL and commit
   * attributes: the entry loses none of what the generator added.
   */
  lemma VersionEntryReadsBack(r: TagRecord)
    ensures AsInt(Get(VersionEntry(r), JobIdKey, JobIdKey), JobIdKey) == Success(r.jobId)
    ensures AsString(Get(VersionEntry(r), PagesUrlKey, PagesUrlKey), PagesUrlKey) == Success(r.pagesUrl)
    ensures Get(VersionEntry(r), CommitInfoKey, CommitInfoKey) == Success(JObject(r.commit.attributes))
  {
  }

  /**
   * In the entry of every tag that resolved, "job_id" is -1 exactly when
   * "pages_url" is empty, and a real job's id otherwise.
   */
  lemma VersionEntrySentinelsAgree(project: Project, tag: Tag, jobName: Option<string>, webUrl: string)
    requires ResolveTag(project, tag, jobName, webUrl).Success?
    ensures var entry := VersionEntry(ResolveTag(project, tag, jobName, webUrl).value);
      && entry[JobIdKey].JInt? && entry[PagesUrlKey].JStr?
      && (entry[JobIdKey].i == NoJob <==> entry[PagesUrlKey].s == "")
      && entry[JobIdKey].i >= NoJob
  {
    SentinelsAgree(project, tag, jobName, webUrl);
  }

  /**
   * The list `save_version_info_file` serialises: the entry of every tag,
   * in the order of the tag list.
   */
  method VersionInfo(tagList: seq<TagInfo>) returns (versionInfo: seq<Attributes>)
    ensures |versionInfo| == |tagList|
    ensures forall i :: 0 <= i < |tagList| ==> versionInfo[i] == VersionEntry(tagList[i].Snapshot())
  {
    versionInfo := [];
    for i := 0 to |tagList|
      invariant |versionInfo| == i
      invariant forall k :: 0 <= k < i ==> versionInfo[k] == VersionEntry(tagList[k].Snapshot())
    {
      var tag := tagList[i];
      var info := tag.tag.attributes;
      info := info[PagesUrlKey := JStr(tag.pagesUrl)];
      info := info[JobIdKey := JInt(tag.jobId)];
      info := info[CommitInfoKey := JObject(tag.commit.attributes)];
      versionInfo := versionInfo + [info];
    }
  }

  /**
   * The tag base URL of the index page: the commit page URL of the first
   * tag's commit turned into the tag list URL. An empty tag list fails, as
   * reading its first element does.
   */
  function IndexTagBaseUrl(tagList: seq<TagInfo>): (r: Result<string, Failure>)
    reads tagList
    ensures tagList == [] ==> r == Failure(NoTags)
    ensures r.Success? ==> AsString(Get(tagList[0].commit.attributes, "web_url", "web_url"), "web_url").Success?
  {
    if tagList == [] then Failure(NoTags)
    else
      match AsString(Get(tagList[0].commit.attributes, "web_url", "web_url"), "web_url")
      case Failure(e) => Failure(e)
      case Success(url) => Success(TagBaseUrl(url))
  }

  /**
   * When the first tag's commit page is "<project>/-/commit/<sha>", the
   * index page links tags under "<project>/-/tags/".
   */
  lemma IndexTagBaseUrlOfCommitPage(tagList: seq<TagInfo>, project: string, sha: string)
    requires tagList != []
    requires "web_url" in tagList[0].commit.attributes
    requires tagList[0].commit.attributes["web_url"] == JStr(project + "/-/commit/" + sha)
    requires '\n' !in project && '\n' !in sha && !Contains(project, "/-/")
    ensures IndexTagBaseUrl(tagList) == Success(project + "/-/tags/")
  {
    TagBaseUrlOfCommitUrl(project, sha);
  }
}
