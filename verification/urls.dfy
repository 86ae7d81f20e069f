/**
 * The URLs the generator builds: the link to a job's published artifact
 * folder, the default pages base URL of a project, and the base URL of the
 * repository's tag pages.
 */
module Urls {
  import opened Wrappers
  import opened Text
  import opened Entities

  /** The hosting service's own pages domain. */
  const PagesDomain := ".gitlab.io"

  /** The path segment artifacts need when pages are served from any other domain. */
  const ExternalSegment := "external_file/"

  /** The path segment a base URL calls for: `external_file/` unless the URL is on the pages domain. */
  function ExternalPart(webUrl: string): string
  {
    if !Contains(webUrl, PagesDomain) then ExternalSegment else ""
  }

  /** The part of an artifact URL after the base URL. */
  function ArtifactPath(jobId: int, external: string, folder: string, indexFile: string): string
  {
    "/-/jobs/" + IntToString(jobId) + "/artifacts/" + external + folder + "/" + indexFile
  }

  /**
   * `get_artifact_url`: the URL of `folder/indexFile` in the artifacts of
   * job `jobId`, with `external_file/` inserted unless `webUrl` is on the
   * service's pages domain.
   */
  function ArtifactUrl(webUrl: string, jobId: int, folder: string, indexFile: string): (url: string)
  {
    webUrl + ArtifactPath(jobId, ExternalPart(webUrl), folder, indexFile)
  }

  /**
   * The artifact path starts with `external_file/` exactly when the base
   * URL is not on the pages domain; otherwise the folder follows directly.
   */
  lemma ExternalSegmentIffOffPagesDomain(webUrl: string, jobId: int, folder: string, indexFile: string)
    ensures var url := ArtifactUrl(webUrl, jobId, folder, indexFile);
      (url == webUrl + ArtifactPath(jobId, ExternalSegment, folder, indexFile)) <==> !Contains(webUrl, PagesDomain)
    ensures var url := ArtifactUrl(webUrl, jobId, folder, indexFile);
      (url == webUrl + ArtifactPath(jobId, "", folder, indexFile)) <==> Contains(webUrl, PagesDomain)
  {
    var withSegment := ArtifactPath(jobId, ExternalSegment, folder, indexFile);
    var without := ArtifactPath(jobId, "", folder, indexFile);
    assert |webUrl + withSegment| != |webUrl + without|;
  }

  /** Two jobs' artifact paths differ: the path identifies the job. */
  lemma ArtifactPathIdentifiesJob(a: int, b: int, external: string, folder: string, indexFile: string)
    requires ArtifactPath(a, external, folder, indexFile) == ArtifactPath(b, external, folder, indexFile)
    ensures a == b
  {
    var pa, pb := ArtifactPath(a, external, folder, indexFile), ArtifactPath(b, external, folder, indexFile);
    var sa, sb := IntToString(a), IntToString(b);
    assert |sa| == |sb|;
    assert sa == pa[8..8 + |sa|];
    assert sb == pb[8..8 + |sb|];
    IntToStringInjective(a, b);
  }

  /** Two jobs' artifacts never share a URL: the URL identifies the job. */
  lemma ArtifactUrlIdentifiesJob(webUrl: string, a: int, b: int, folder: string, indexFile: string)
    requires ArtifactUrl(webUrl, a, folder, indexFile) == ArtifactUrl(webUrl, b, folder, indexFile)
    ensures a == b
  {
    var external := ExternalPart(webUrl);
    var ua, ub := ArtifactUrl(webUrl, a, folder, indexFile), ArtifactUrl(webUrl, b, folder, indexFile);
    assert ua[|webUrl|..] == ArtifactPath(a, external, folder, indexFile);
    assert ub[|webUrl|..] == ArtifactPath(b, external, folder, indexFile);
    ArtifactPathIdentifiesJob(a, b, external, folder, indexFile);
  }

  /** The artifact path of the unit test's job 1234, with no extra segment. */
  lemma TestArtifactPath()
    ensures ArtifactPath(1234, "", "public", "index.html")
         == "/-/jobs/" + "1234" + "/artifacts/" + "public" + "/" + "index.html"
  {
    assert IntToString(1234) == "1234";
  }

  /** The unit test's base URL is on the pages domain, so its artifact URLs get no `external_file/`. */
  lemma TestUrlIsOnPagesDomain(webUrl: string)
    requires webUrl == "https://brainelectronics.gitlab.io/-/asdf"
    ensures Contains(webUrl, PagesDomain)
    ensures ArtifactUrl(webUrl, 1234, "public", "index.html")
         == webUrl + ("/-/jobs/" + "1234" + "/artifacts/" + "public" + "/" + "index.html")
  {
    assert webUrl[24..34] == PagesDomain;
    assert OccursAt(webUrl, PagesDomain, 24);
    TestArtifactPath();
  }

  /** A base URL on another domain, such as a self-hosted instance, gets `external_file/`. */
  lemma OtherUrlIsOffPagesDomain(webUrl: string)
    requires webUrl == "https://git.example.com/group/proj"
    ensures !Contains(webUrl, PagesDomain)
    ensures ArtifactUrl(webUrl, 42, "other", "root.php") == webUrl + ArtifactPath(42, ExternalSegment, "other", "root.php")
  {
    // ".gitlab.io" holds a 'b', which this URL does not.
    assert 'b' !in webUrl;
    MissingCharacterExcludesOccurrence(webUrl, PagesDomain, 6);
  }

  /** The default pages base URL of a project owned by `owner`. */
  function DefaultPagesBaseUrl(owner: string, name: string): string
  {
    "https://" + owner + PagesDomain + "/-/" + name
  }

  /** The default base URL is always on the pages domain, so its artifact URLs never get `external_file/`. */
  lemma DefaultPagesBaseUrlIsOnPagesDomain(owner: string, name: string, jobId: int, folder: string, indexFile: string)
    ensures Contains(DefaultPagesBaseUrl(owner, name), PagesDomain)
    ensures ArtifactUrl(DefaultPagesBaseUrl(owner, name), jobId, folder, indexFile)
         == DefaultPagesBaseUrl(owner, name) + ArtifactPath(jobId, "", folder, indexFile)
  {
    var url := DefaultPagesBaseUrl(owner, name);
    assert url[|"https://" + owner|..|"https://" + owner| + |PagesDomain|] == PagesDomain;
    assert OccursAt(url, PagesDomain, |"https://" + owner|);
    ContainsIff(url, PagesDomain);
  }

  /**
   * The base URL artifact links are built on: the one given on the command
   * line, else the default pages URL of the project, from its namespace name
   * and its name.
   */
  function PagesWebUrl(pagesBaseUrl: Option<string>, project: Attributes): (r: Result<string, Failure>)
    ensures pagesBaseUrl.Some? ==> r == Success(pagesBaseUrl.value)
    ensures pagesBaseUrl.None? && r.Success? ==> Contains(r.value, PagesDomain)
    ensures pagesBaseUrl.None? && r.Success? ==>
      exists owner, name ::
        && GetIn(project, "namespace", "name") == Success(JStr(owner))
        && Get(project, "name", "name") == Success(JStr(name))
        && r.value == DefaultPagesBaseUrl(owner, name)
    ensures r.Failure? <==>
      && pagesBaseUrl.None?
      && !(GetIn(project, "namespace", "name").Success? && GetIn(project, "namespace", "name").value.JStr?
           && Get(project, "name", "name").Success? && Get(project, "name", "name").value.JStr?)
  {
    match pagesBaseUrl
    case Some(url) => Success(url)
    case None =>
      var owner := AsString(GetIn(project, "namespace", "name"), "namespace.name");
      var name := AsString(Get(project, "name", "name"), "name");
      if owner.Failure? then Failure(owner.error)
      else if name.Failure? then Failure(name.error)
      else
        DefaultPagesBaseUrlIsOnPagesDomain(owner.value, name.value, 0, "", "");
        Success(DefaultPagesBaseUrl(owner.value, name.value))
  }

  /** `re.sub(r'\/-\/commit\/.*', '/-/tags/', url)`: a commit page URL turned into the tag list URL. */
  function TagBaseUrl(commitWebUrl: string): string
  {
    ReplaceToLineEnd(commitWebUrl, "/-/commit/", "/-/tags/")
  }

  /** In "<project>/-/commit/<sha>", with no "/-/" in the project URL, "/-/commit/" does not start inside the project URL. */
  lemma CommitSegmentNotBefore(project: string, sha: string, j: nat)
    requires !Contains(project, "/-/") && j < |project|
    ensures !OccursAt(project + "/-/commit/" + sha, "/-/commit/", j)
  {
    var pat := "/-/commit/";
    var url := project + pat + sha;
    var n := |project|;
    if j + 3 <= n {
      // the pattern starts with "/-/", which the project URL does not hold
      assert !OccursAt(project, "/-/", j);
      assert url[j..j + |pat|][..3] == url[j..j + 3] == project[j..j + 3];
    } else if j == n - 1 {
      // the pattern's '-' would have to be the '/' that follows the project URL
      assert url[j..j + |pat|][1] == url[n] == '/';
    } else {
      // the pattern's 'c' would have to be the '-' of "/-/commit/"
      assert url[j..j + |pat|][3] == url[n + 1] == '-';
    }
  }

  /**
   * For a commit page URL "<project>/-/commit/<sha>" of a project URL
   * without "/-/" in it, the tag base URL is "<project>/-/tags/".
   */
  lemma TagBaseUrlOfCommitUrl(project: string, sha: string)
    requires '\n' !in project && '\n' !in sha
    requires !Contains(project, "/-/")
    ensures TagBaseUrl(project + "/-/commit/" + sha) == project + "/-/tags/"
  {
    var pat := "/-/commit/";
    var url := project + pat + sha;
    var n := |project|;
    assert '\n' !in url by {
      forall k | 0 <= k < |url| ensures url[k] != '\n' {
        if k < n { assert url[k] == project[k]; }
        else if k >= n + |pat| { assert url[k] == sha[k - n - |pat|]; }
      }
    }
    assert OccursAt(url, pat, n);
    forall j | 0 <= j < n ensures !OccursAt(url, pat, j) {
      CommitSegmentNotBefore(project, sha, j);
    }
    assert FirstIndex(url, pat) == Some(n);
    ReplaceToLineEndOnOneLine(url, pat, "/-/tags/");
    assert url[..n] == project;
  }
}
