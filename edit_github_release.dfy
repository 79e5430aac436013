/**
 * `EditGithubReleaseAction` (actions/edit_github_release.rb): the release data the
 * action sends to edit a release, and the checks on its repository name and server
 * URL options. Finding the release by tag and the PATCH request are not part of
 * this model.
 */
module EditGithubRelease {
  import opened Wrappers
  import opened RubyText

  /** The fields of the edit request; an absent field is not sent. */
  datatype ReleaseData = ReleaseData(name: Option<string>, body: string, prerelease: Option<bool>, makeLatest: Option<bool>)

  /**
   * The release data `edit_github_release` builds: the notes always, the name when
   * given, `prerelease: false` for a release or a latest release, `make_latest: true`
   * for a latest release.
   */
  function EditData(releaseNotes: string, releaseName: Option<string>, markAsRelease: bool,
                    markAsLatestRelease: bool): (r: ReleaseData)
    ensures r.body == releaseNotes
    ensures r.name == releaseName
    ensures r.prerelease.Some? <==> markAsRelease || markAsLatestRelease
    ensures r.prerelease != Some(true)
    ensures r.makeLatest.Some? <==> markAsLatestRelease
    ensures r.makeLatest != Some(false)
  {
    ReleaseData(releaseName, releaseNotes,
                if markAsRelease || markAsLatestRelease then Some(false) else None,
                if markAsLatestRelease then Some(true) else None)
  }

  /**
   * The release data as `edit_github_release` fills it in: an empty hash, then each
   * field assigned in turn when its condition holds.
   */
  method BuildReleaseData(releaseNotes: string, releaseName: Option<string>, markAsRelease: bool,
                          markAsLatestRelease: bool) returns (data: ReleaseData)
    ensures data == EditData(releaseNotes, releaseName, markAsRelease, markAsLatestRelease)
  {
    data := ReleaseData(None, "", None, None);
    if releaseName.Some? {
      data := data.(name := releaseName);
    }
    data := data.(body := releaseNotes);
    if markAsRelease || markAsLatestRelease {
      data := data.(prerelease := Some(false));
    }
    if markAsLatestRelease {
      data := data.(makeLatest := Some(true));
    }
  }

  /** A latest release is never left marked as a pre-release. */
  lemma LatestIsNotPrerelease(releaseNotes: string, releaseName: Option<string>, markAsRelease: bool,
                              markAsLatestRelease: bool)
    ensures EditData(releaseNotes, releaseName, markAsRelease, markAsLatestRelease).makeLatest.Some? ==>
            EditData(releaseNotes, releaseName, markAsRelease, markAsLatestRelease).prerelease == Some(false)
  {
  }

  const PathOnly: string := "Only pass the path, e.g. 'fastlane/fastlane'"
  const ProtocolMissing: string := "Include the protocol in the server url, e.g. https://your.github.server"

  /** The verify block of `repository_name`: no host, and exactly two `/`-separated fields. */
  function VerifyRepositoryName(value: string): (r: Option<string>)
    ensures r.None? <==> !Contains(value, "github.com") && |Split(value, '/')| == 2
    ensures r.Some? ==> r.value == PathOnly
  {
    if Contains(value, "github.com") then Some(PathOnly)
    else if |Split(value, '/')| != 2 then Some(PathOnly)
    else None
  }

  /** The verify block of `server_url`: it must contain `//`. */
  function VerifyServerUrl(value: string): (r: Option<string>)
    ensures r.None? <==> Contains(value, "//")
    ensures r.Some? ==> r.value == ProtocolMissing
  {
    if Contains(value, "//") then None else Some(ProtocolMissing)
  }

  /** Splitting `a/b` for fields without `/` gives the two fields back when the last is not empty. */
  lemma SplitPath(owner: string, repo: string)
    requires '/' !in owner && '/' !in repo && repo != ""
    ensures Split(owner + "/" + repo, '/') == [owner, repo]
  {
    SplitAllJoin([owner, repo], '/');
    assert Join([owner, repo], "/") == owner + "/" + repo by {
      assert Join([repo], "/") == repo;
    }
  }

  /** An `owner/repo` path not naming the host is accepted. */
  lemma PathAccepted(owner: string, repo: string)
    requires '/' !in owner && '/' !in repo && repo != ""
    requires !Contains(owner + "/" + repo, "github.com")
    ensures VerifyRepositoryName(owner + "/" + repo).None?
  {
    SplitPath(owner, repo);
  }

  /** A path with a third field is rejected. */
  lemma ThreeFieldsRejected(a: string, b: string, c: string)
    requires '/' !in a && '/' !in b && '/' !in c && c != ""
    ensures VerifyRepositoryName(a + "/" + b + "/" + c).Some?
  {
    SplitAllJoin([a, b, c], '/');
    assert Join([a, b, c], "/") == a + "/" + b + "/" + c by {
      assert Join([c], "/") == c;
      assert Join([b, c], "/") == b + "/" + c;
    }
  }

  /** A full URL naming the host is rejected whatever its shape. */
  lemma HostRejected(pre: string, post: string)
    ensures VerifyRepositoryName(pre + "github.com" + post).Some?
  {
    var s := pre + "github.com" + post;
    assert OccursAt(s, "github.com", |pre|) by {
      assert s[|pre|..|pre| + 10] == "github.com";
    }
  }

  /** The owner field may be empty: a leading `/` still gives two fields and passes. */
  lemma LeadingSlashAccepted(repo: string)
    requires '/' !in repo && repo != ""
    requires !Contains("/" + repo, "github.com")
    ensures VerifyRepositoryName("/" + repo).None?
  {
    assert "" + "/" + repo == "/" + repo;
    PathAccepted("", repo);
  }
}
