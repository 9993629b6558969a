/** `isValidRepoUrl` of utils.mjs: a test of the repository URL against
    `^https:\/\/github.com\/[a-zA-Z0-9-]+\/[a-zA-Z0-9-]+$`, written out as a
    matcher. The `.` in `github.com` is not escaped, so it matches any one
    character other than a line terminator. */
module RepoUrl {
  import opened Wrappers
  import opened Strings

  /** The class `[a-zA-Z0-9-]`. */
  predicate IsWordChar(c: char)
  {
    'a' <= c <= 'z' || 'A' <= c <= 'Z' || '0' <= c <= '9' || c == '-'
  }

  /** `[a-zA-Z0-9-]+`. */
  predicate IsWord(s: string)
  {
    |s| > 0 && forall i :: 0 <= i < |s| ==> IsWordChar(s[i])
  }

  /** What a regular-expression `.` matches without the `s` flag. */
  predicate IsDotChar(c: char)
  {
    c != '\n' && c != '\r' && c != '\U{2028}' && c != '\U{2029}'
  }

  /** `[a-zA-Z0-9-]+\/[a-zA-Z0-9-]+$` on the text after the host. */
  function OwnerRepo(s: string): bool
  {
    match IndexOf(s, "/")
    case None => false
    case Some(i) => IsWord(s[..i]) && IsWord(s[i + 1..])
  }

  /** `isValidRepoUrl(repoUrl)`, as written. */
  function IsValidRepoUrl(url: string): bool
  {
    && |url| >= 19
    && url[..14] == "https://github"
    && IsDotChar(url[14])
    && url[14 + 1..19] == "com/"
    && OwnerRepo(url[19..])
  }

  /** The URL shape the regular expression describes. */
  predicate Shape(url: string, c: char, owner: string, repo: string)
  {
    && url == "https://github" + [c] + "com/" + owner + "/" + repo
    && IsDotChar(c) && IsWord(owner) && IsWord(repo)
  }

  predicate OwnerRepoShape(s: string, owner: string, repo: string)
  {
    s == owner + "/" + repo && IsWord(owner) && IsWord(repo)
  }

  /** A word contains no slash, so the first slash after it is the one that
      follows it. */
  lemma FirstSlash(owner: string, rest: string)
    requires IsWord(owner)
    ensures IndexOf(owner + "/" + rest, "/") == Some(|owner|)
  {
    var s := owner + "/" + rest;
    assert OccursAt(s, "/", |owner|) by {
      assert s[|owner|..|owner| + 1] == "/";
    }
    forall j | 0 <= j < |owner| ensures !OccursAt(s, "/", j) {
      assert s[j] == owner[j];
      assert IsWordChar(owner[j]);
    }
  }

  /** The owner/repository part matches exactly "word / word". */
  lemma OwnerRepoExactly(s: string)
    ensures OwnerRepo(s) <==> exists owner, repo :: OwnerRepoShape(s, owner, repo)
  {
    match IndexOf(s, "/")
    case None =>
      if exists owner, repo :: OwnerRepoShape(s, owner, repo) {
        var owner, repo :| OwnerRepoShape(s, owner, repo);
        FirstSlash(owner, repo);
      }
    case Some(i) =>
      if OwnerRepo(s) {
        assert s[i..i + 1] == "/";
        assert s == s[..i] + "/" + s[i + 1..];
        assert OwnerRepoShape(s, s[..i], s[i + 1..]);
      }
      if exists owner, repo :: OwnerRepoShape(s, owner, repo) {
        var owner, repo :| OwnerRepoShape(s, owner, repo);
        FirstSlash(owner, repo);
        assert s[..i] == owner;
        assert s[i + 1..] == repo;
      }
  }

  /** The validator accepts exactly `https://github` + one non-line-terminator
      character + `com/` + owner + `/` + repository, owner and repository
      being non-empty runs of letters, digits and hyphens. */
  lemma IsValidRepoUrlExactly(url: string)
    ensures IsValidRepoUrl(url) <==> exists c, owner, repo :: Shape(url, c, owner, repo)
  {
    if IsValidRepoUrl(url) {
      var rest := url[19..];
      OwnerRepoExactly(rest);
      var owner, repo :| OwnerRepoShape(rest, owner, repo);
      assert url == url[..14] + [url[14]] + url[15..19] + rest;
      assert Shape(url, url[14], owner, repo);
    }
    if exists c, owner, repo :: Shape(url, c, owner, repo) {
      var c, owner, repo :| Shape(url, c, owner, repo);
      var rest := owner + "/" + repo;
      assert url == "https://github" + [c] + "com/" + rest;
      assert url[19..] == rest;
      assert OwnerRepoShape(rest, owner, repo);
      OwnerRepoExactly(rest);
    }
  }

  /** Appending text to an accepted URL that starts with a slash or with
      `.git` (a clone URL, a trailing slash, a deeper path) makes it
      rejected. */
  lemma RejectsSuffixes(url: string, tail: string)
    requires IsValidRepoUrl(url)
    requires tail != [] && (tail[0] == '/' || tail[0] == '.')
    ensures !IsValidRepoUrl(url + tail)
  {
    IsValidRepoUrlExactly(url);
    var c, owner, repo :| Shape(url, c, owner, repo);
    var u := url + tail;
    var rest := u[19..];
    assert rest == owner + "/" + (repo + tail);
    FirstSlash(owner, repo + tail);
    assert rest[|owner| + 1..] == repo + tail;
    assert !IsWord(repo + tail) by {
      assert (repo + tail)[|repo|] == tail[0];
      assert !IsWordChar(tail[0]);
    }
  }

  /** The intended check, with the dot of `github.com` escaped. */
  function IsGithubRepoUrl(url: string): bool
  {
    |url| >= 19 && url[..19] == "https://github.com/" && OwnerRepo(url[19..])
  }

  /** The URL shape the intended check describes. */
  predicate GithubShape(url: string, owner: string, repo: string)
  {
    url == "https://github.com/" + owner + "/" + repo && IsWord(owner) && IsWord(repo)
  }

  /** The intended check accepts exactly `https://github.com/owner/repo`, and
      everything it accepts the written check accepts too. */
  lemma IsGithubRepoUrlExactly(url: string)
    ensures IsGithubRepoUrl(url) <==> exists owner, repo :: GithubShape(url, owner, repo)
    ensures IsGithubRepoUrl(url) ==> IsValidRepoUrl(url)
  {
    if IsGithubRepoUrl(url) {
      GithubAccepted(url);
      GithubNarrower(url);
    }
    if exists owner, repo :: GithubShape(url, owner, repo) {
      var owner, repo :| GithubShape(url, owner, repo);
      GithubShapeAccepted(url, owner, repo);
    }
  }

  lemma GithubAccepted(url: string)
    requires IsGithubRepoUrl(url)
    ensures exists owner, repo :: GithubShape(url, owner, repo)
  {
    var rest := url[19..];
    OwnerRepoExactly(rest);
    var owner, repo :| OwnerRepoShape(rest, owner, repo);
    assert url == url[..19] + rest;
    assert GithubShape(url, owner, repo);
  }

  lemma GithubNarrower(url: string)
    requires IsGithubRepoUrl(url)
    ensures IsValidRepoUrl(url)
  {
    var head := url[..19];
    assert url[..14] == head[..14] && url[14] == head[14] && url[15..19] == head[15..19];
  }

  lemma GithubShapeAccepted(url: string, owner: string, repo: string)
    requires GithubShape(url, owner, repo)
    ensures IsGithubRepoUrl(url)
  {
    var rest := owner + "/" + repo;
    assert url == "https://github.com/" + rest;
    assert url[19..] == rest && url[..19] == "https://github.com/";
    assert OwnerRepoShape(rest, owner, repo);
    OwnerRepoExactly(rest);
  }

  /** The unescaped dot lets a URL through whose host is not github.com. */
  lemma DotMatchesAnyHostChar(url: string)
    requires url == "https://githubXcom/" + "a/b"
    ensures IsValidRepoUrl(url) && !IsGithubRepoUrl(url)
  {
    assert Shape(url, 'X', "a", "b");
    IsValidRepoUrlExactly(url);
    assert url[..19][14] == 'X';
  }
}
