/**
 * The `import-pipeline` command: create a pipeline that references a YAML
 * file tracked in a git repository (orchestra_cli/src/import_pipeline.py).
 *
 * git, the YAML loader, the repository-root and warning helpers and the HTTP
 * server are collaborators outside the model; they enter as values or as
 * total functions from the question asked to the answer given.
 */
module ImportPipeline {
  import opened Wrappers
  import opened Strings
  import opened Json
  import opened Http
  import Console

  // ---------------------------------------------------------------- git

  /** The git invocations this file makes, all run in the repository root. */
  datatype GitCommand =
    | RemoteGetUrlOrigin      // git remote get-url origin
    | SymbolicRefOriginHead   // git symbolic-ref refs/remotes/origin/HEAD
    | RemoteShowOrigin        // git remote show origin

  /** What running the git executable gives: an exit status with its two
      streams, or an exception raised while launching it. */
  datatype ProcessResult =
    | Exited(code: int, stdout: string, stderr: string)
    | LaunchFailed(message: string)

  /** `(ok, text)` as returned by `_run_git_command`. */
  datatype GitOutput = GitOutput(ok: bool, out: string)

  /** `_run_git_command` after the process has run: success is exit status 0
      with the stripped standard output; a failure carries the stripped
      standard error, or the stripped standard output when that is empty. */
  function RunGitCommand(p: ProcessResult): (r: GitOutput)
    ensures r.ok <==> p.Exited? && p.code == 0
    ensures r.ok ==> r.out == Strip(p.stdout)
    ensures p.Exited? && !r.ok ==>
              r.out == (if Strip(p.stderr) != "" then Strip(p.stderr) else Strip(p.stdout))
    ensures p.Exited? ==> NoOuterSpace(r.out)
  {
    match p
    case LaunchFailed(message) => GitOutput(false, message)
    case Exited(code, stdout, stderr) =>
      if code == 0 then GitOutput(true, Strip(stdout))
      else GitOutput(false, if Strip(stderr) != "" then Strip(stderr) else Strip(stdout))
  }

  /** The git collaborator: the process result of each command. */
  type Git = GitCommand -> ProcessResult

  // ---------------------------------------------------- remote-URL slug

  /** Result of `_detect_repository_url`: a slug, `None`, or the `ValueError`
      that `url.index("/")` raises and nothing catches. */
  datatype SlugResult = Slug(slug: string) | NotDetected | UncaughtValueError

  /** After a scheme: drop a `user@` prefix standing before the first `/`.
      `None` is the `ValueError` of `url.index("/")` when there is an `@`
      but no `/`. */
  function StripUserInfo(url: string): (r: Option<string>)
    ensures r.None? <==> Contains(url, "@") && !Contains(url, "/")
  {
    if !Contains(url, "@") then Some(url)
    else if !Contains(url, "/") then None
    else if Find(url, "@").value < Find(url, "/").value then Some(After(url, "@"))
    else Some(url)
  }

  /** scp-like `host:path` (no `/` before the first `:`) becomes `host/path`:
      the first `:` is replaced by `/` and every other character is kept. */
  function ScpToPath(url: string): (r: string)
    ensures !(Contains(url, ":") && !Contains(Before(url, ":"), "/")) ==> r == url
    ensures Contains(url, ":") && !Contains(Before(url, ":"), "/") ==>
              var i := |Before(url, ":")|;
              |r| == |url| && i < |url| && url[i] == ':' && r[i] == '/'
              && forall k :: 0 <= k < |url| && k != i ==> r[k] == url[k]
  {
    if Contains(url, ":") && !Contains(Before(url, ":"), "/")
    then ReplaceAt(Before(url, ":"), ":", "/", After(url, ":"), url)
    else url
  }

  /** `host + "/" + path` differs from `host + ":" + path` only at `|host|`.
      The separators are parameters fixed by the precondition only as a proof
      aid, so that the solver does not unfold the string literals. */
  function ReplaceAt(host: string, colon: string, slash: string, path: string, url: string): (r: string)
    requires colon == ":" && slash == "/" && url == host + colon + path
    ensures |r| == |url| && url[|host|] == ':' && r[|host|] == '/'
    ensures forall k :: 0 <= k < |url| && k != |host| ==> r[k] == url[k]
  {
    var r := host + slash + path;
    assert forall k :: 0 <= k < |host| ==> r[k] == url[k] && url[k] == host[k];
    assert forall k :: |host| < k < |url| ==> r[k] == url[k] && url[k] == path[k - |host| - 1];
    r
  }

  /** Everything after the first `/`, or the whole string when it has none:
      the result ends the URL and follows a `/` with no `/` before it. */
  function DropHost(url: string): (r: string)
    ensures !Contains(url, "/") ==> r == url
    ensures Contains(url, "/") ==>
              |r| < |url| && EndsWith(url, r) && url[|url| - |r| - 1] == '/'
              && '/' !in url[..|url| - |r| - 1]
  {
    if Contains(url, "/") then AfterFirstSlash(url) else url
  }

  /** The text after the first `/` of a URL that has one. */
  function AfterFirstSlash(url: string): (r: string)
    requires Contains(url, "/")
    ensures |r| < |url| && EndsWith(url, r) && url[|url| - |r| - 1] == '/'
    ensures '/' !in url[..|url| - |r| - 1]
  {
    var host, r := Before(url, "/"), After(url, "/");
    assert url == host + "/" + r;
    assert url[..|url| - |r| - 1] == host;
    assert url[|url| - |r|..] == r;
    ContainsChar(host, '/');
    r
  }

  /** Path components some hosts insert that carry no meaning. */
  predicate IsNoise(seg: string) {
    seg == "_git" || seg == "scm" || seg == "v3"
  }

  /** A component that survives filtering. */
  predicate IsCleanSegment(seg: string) {
    seg != "" && !IsNoise(seg)
  }

  /** `[seg for seg in segs if seg and seg not in {"_git", "scm", "v3"}]`
      (`CleanSegmentsKept` states what it keeps). */
  function CleanSegments(segs: seq<string>): (r: seq<string>)
    ensures |r| <= |segs|
  {
    if segs == [] then []
    else
      var rest := CleanSegments(segs[1..]);
      if IsCleanSegment(segs[0]) then [segs[0]] + rest else rest
  }

  /** Filtering keeps exactly the clean components: everything kept is
      clean and taken from `segs`, and every clean component is kept. */
  lemma {:induction false} CleanSegmentsKept(segs: seq<string>)
    ensures var r := CleanSegments(segs);
      (forall k :: 0 <= k < |r| ==> IsCleanSegment(r[k]) && r[k] in segs)
      && (forall k :: 0 <= k < |segs| && IsCleanSegment(segs[k]) ==> segs[k] in r)
  {
    if segs != [] {
      var tail := segs[1..];
      var rest := CleanSegments(tail);
      CleanSegmentsKept(tail);
      assert forall x :: x in tail ==> x in segs;
      assert forall k :: 1 <= k < |segs| ==> segs[k] == tail[k - 1];
      if IsCleanSegment(segs[0]) {
        assert CleanSegments(segs) == [segs[0]] + rest;
      } else {
        assert CleanSegments(segs) == rest;
      }
    }
  }

  /** Filtering works component by component: the kept components of a
      concatenation are those of each part, in the same order and number. */
  lemma {:induction false} CleanSegmentsAppend(a: seq<string>, b: seq<string>)
    ensures CleanSegments(a + b) == CleanSegments(a) + CleanSegments(b)
    decreases |a|
  {
    if a == [] {
      assert a + b == b;
    } else {
      assert a + b == [a[0]] + (a[1..] + b);
      assert a == [a[0]] + a[1..];
      CleanCons(a[0], a[1..] + b);
      CleanCons(a[0], a[1..]);
      CleanSegmentsAppend(a[1..], b);
    }
  }

  /** No component is clean. */
  predicate NoClean(segs: seq<string>) {
    forall k :: 0 <= k < |segs| ==> !IsCleanSegment(segs[k])
  }

  /** Filtering leaves nothing exactly when no component is clean. */
  lemma {:induction false} CleanSegmentsEmpty(segs: seq<string>)
    ensures CleanSegments(segs) == [] <==> NoClean(segs)
  {
    if segs != [] {
      assert segs == [segs[0]] + segs[1..];
      CleanCons(segs[0], segs[1..]);
      CleanSegmentsEmpty(segs[1..]);
      assert forall k :: 1 <= k < |segs| ==> segs[k] == segs[1..][k - 1];
    }
  }

  /** When `segs[j]` is the only clean component from `i` on, the filter ends
      with it: what comes before `i` is filtered, then `segs[j]` alone. */
  lemma CleanEndsWithOne(segs: seq<string>, i: nat, j: nat)
    requires i <= j < |segs| && IsCleanSegment(segs[j])
    requires forall k :: i <= k < |segs| && k != j ==> !IsCleanSegment(segs[k])
    ensures CleanSegments(segs) == CleanSegments(segs[..i]) + [segs[j]]
  {
    var rest := segs[i..j] + ([segs[j]] + segs[j + 1..]);
    SplitAround(segs, i, j);
    NoCleanSlice(segs, i, j);
    NoCleanSlice(segs, j + 1, |segs|);
    CleanOnlyOne(segs[i..j], segs[j], segs[j + 1..]);
    CleanSegmentsAppend(segs[..i], rest);
  }

  /** `segs` cut before `i` and around `j`. */
  lemma SplitAround(segs: seq<string>, i: nat, j: nat)
    requires i <= j < |segs|
    ensures segs == segs[..i] + (segs[i..j] + ([segs[j]] + segs[j + 1..]))
  {
    assert segs[i..] == segs[i..j] + segs[j..];
    assert segs[j..] == [segs[j]] + segs[j + 1..];
    assert segs == segs[..i] + segs[i..];
  }

  /** One clean component among unclean ones is all the filter keeps. */
  lemma CleanOnlyOne(mid: seq<string>, seg: string, tail: seq<string>)
    requires NoClean(mid) && IsCleanSegment(seg) && NoClean(tail)
    ensures CleanSegments(mid + ([seg] + tail)) == [seg]
  {
    CleanSegmentsEmpty(mid);
    CleanSegmentsEmpty(tail);
    CleanCons(seg, tail);
    CleanSegmentsAppend(mid, [seg] + tail);
  }

  /** A run of components none of which is clean. */
  lemma NoCleanSlice(segs: seq<string>, lo: nat, hi: nat)
    requires lo <= hi <= |segs|
    requires forall k :: lo <= k < hi ==> !IsCleanSegment(segs[k])
    ensures NoClean(segs[lo..hi])
  {
    var run := segs[lo..hi];
    assert forall k :: 0 <= k < |run| ==> run[k] == segs[lo + k];
  }

  /** `seg[:-4] if seg.endswith(".git") else seg`. */
  function DropGitSuffix(seg: string): (r: string)
    ensures EndsWith(seg, ".git") ==> r + ".git" == seg
    ensures !EndsWith(seg, ".git") ==> r == seg
  {
    if EndsWith(seg, ".git") then seg[..|seg| - 4] else seg
  }

  /** Lines 68-80: the slug made from the components left after filtering:
      nothing, the last one alone, or the last two joined by `/`, with `.git`
      dropped from the last. */
  function SlugOfClean(filtered: seq<string>): (r: SlugResult)
    ensures r.NotDetected? <==> filtered == []
    ensures !r.UncaughtValueError?
  {
    if filtered == [] then NotDetected
    else
      var repo := DropGitSuffix(filtered[|filtered| - 1]);
      if |filtered| >= 2 then Slug(filtered[|filtered| - 2] + "/" + repo) else Slug(repo)
  }

  /** Lines 64-80: the slug built from the path left once the host is gone;
      it is missing exactly when no component is clean. */
  function SlugFromPath(path: string): (r: SlugResult)
    ensures r.NotDetected? <==> NoClean(Split(path, '/'))
    ensures !r.UncaughtValueError?
  {
    CleanSegmentsEmpty(Split(path, '/'));
    SlugOfClean(CleanSegments(Split(path, '/')))
  }

  /** The slug is built from the last two clean components, in order: the
      last clean component `segs[j]` (with `.git` dropped) after the clean
      one closest before it, `segs[i]`. */
  lemma SlugLastTwo(path: string, i: nat, j: nat)
    requires i < j < |Split(path, '/')|
    requires IsCleanSegment(Split(path, '/')[i]) && IsCleanSegment(Split(path, '/')[j])
    requires forall k :: i < k < |Split(path, '/')| && k != j ==> !IsCleanSegment(Split(path, '/')[k])
    ensures SlugFromPath(path) == Slug(Split(path, '/')[i] + "/" + DropGitSuffix(Split(path, '/')[j]))
  {
    var segs := Split(path, '/');
    CleanEndsWithTwo(segs, i, j);
    SlugOfLastTwo(CleanSegments(segs[..i]), segs[i], segs[j]);
  }

  /** The filter ends with `segs[i]` and `segs[j]` when these are the only
      clean components from `i` on. */
  lemma CleanEndsWithTwo(segs: seq<string>, i: nat, j: nat)
    requires i < j < |segs| && IsCleanSegment(segs[i]) && IsCleanSegment(segs[j])
    requires forall k :: i < k < |segs| && k != j ==> !IsCleanSegment(segs[k])
    ensures CleanSegments(segs) == CleanSegments(segs[..i]) + [segs[i]] + [segs[j]]
  {
    CleanEndsWithOne(segs, i + 1, j);
    PrefixStep(segs, i);
    CleanSegmentsAppend(segs[..i], [segs[i]]);
    CleanSingle(segs[i]);
  }

  /** The prefix up to and including `segs[i]`. */
  lemma PrefixStep(segs: seq<string>, i: nat)
    requires i < |segs|
    ensures segs[..i + 1] == segs[..i] + [segs[i]]
  {
    assert segs[..i + 1][..i] == segs[..i];
  }

  /** Filtering a single component. */
  lemma CleanSingle(seg: string)
    ensures CleanSegments([seg]) == if IsCleanSegment(seg) then [seg] else []
  {
    assert [seg][1..] == [];
  }

  /** Components ending in `owner, repo` give `owner/repo`, `.git` dropped. */
  lemma SlugOfLastTwo(front: seq<string>, owner: string, repo: string)
    ensures SlugOfClean(front + [owner] + [repo]) == Slug(owner + "/" + DropGitSuffix(repo))
  {
    var filtered := front + [owner] + [repo];
    assert filtered[|filtered| - 2] == owner && filtered[|filtered| - 1] == repo;
  }

  /** A path with a single clean component gives that component alone,
      with `.git` dropped. */
  lemma SlugOneComponent(path: string, j: nat)
    requires j < |Split(path, '/')| && IsCleanSegment(Split(path, '/')[j])
    requires forall k :: 0 <= k < |Split(path, '/')| && k != j ==> !IsCleanSegment(Split(path, '/')[k])
    ensures SlugFromPath(path) == Slug(DropGitSuffix(Split(path, '/')[j]))
  {
    var segs := Split(path, '/');
    CleanEndsWithOne(segs, 0, j);
    assert segs[..0] == [];
    assert CleanSegments(segs) == [segs[j]];
  }

  /** Lines 44-61: the path part of a remote URL once scheme, user and host
      are gone; `None` is the uncaught `ValueError` of line 50. */
  function RemotePath(remote: string): (r: Option<string>)
    ensures r.None? <==>
              var url := Strip(remote);
              Contains(url, "://") && Contains(After(url, "://"), "@")
              && !Contains(After(url, "://"), "/")
  {
    var url := Strip(remote);
    var rest := if Contains(url, "://") then StripUserInfo(After(url, "://")) else Some(url);
    match rest
    case None => None
    case Some(u) => Some(DropHost(ScpToPath(u)))
  }

  /** Lines 44-80: normalise a remote URL into an `owner/repo` slug. */
  function NormaliseRemote(remote: string): (r: SlugResult)
    ensures r == UncaughtValueError <==> RemotePath(remote).None?
    ensures RemotePath(remote).Some? ==> r == SlugFromPath(RemotePath(remote).value)
  {
    match RemotePath(remote)
    case None => UncaughtValueError
    case Some(path) => SlugFromPath(path)
  }

  /** The host part of an authority `user@host`: what follows the first `@`. */
  function HostOf(authority: string): (h: string)
    ensures forall c :: c !in authority ==> c !in h
    ensures !Contains(authority, "@") ==> h == authority
    ensures Contains(authority, "@") ==>
              Before(authority, "@") + "@" + h == authority && !Contains(Before(authority, "@"), "@")
  {
    if Contains(authority, "@") then
      var h := After(authority, "@");
      assert authority[|authority| - |h|..] == h;
      h
    else authority
  }

  /** With no `:` in it, a host followed by `/` is dropped whole. */
  lemma {:induction false} HostDropped(host: string, path: string)
    requires '/' !in host && ':' !in host
    ensures ScpToPath(host + "/" + path) == host + "/" + path
    ensures DropHost(host + "/" + path) == path
  {
    var url := host + "/" + path;
    assert url == host + ("/" + path);
    FindSkips(host, "/" + path, "/");
    assert "/" <= "/" + path;
    assert Find(url, "/") == Some(|host|);
    if Contains(url, ":") {
      FindSkips(host, "/" + path, ":");
      var i := Find(url, ":").value;
      assert i > |host|;
      assert Before(url, ":")[|host|] == '/';
      ContainsChar(Before(url, ":"), '/');
    }
    assert ScpToPath(url) == url;
    assert url[|host| + 1..] == path;
  }

  /** `user@` before the first `/` is dropped; an `@` after it is kept. */
  lemma UserInfoDropped(authority: string, path: string)
    requires '/' !in authority
    ensures StripUserInfo(authority + "/" + path) == Some(HostOf(authority) + "/" + path)
  {
    if Contains(authority, "@") {
      UserInfoAt(authority, path);
    } else {
      UserInfoAbsent(authority, path);
    }
  }

  /** The first `/` of `authority/path` is the one after the authority. */
  lemma SlashAfterAuthority(authority: string, path: string)
    requires '/' !in authority
    ensures Find(authority + "/" + path, "/") == Some(|authority|)
  {
    assert authority + "/" + path == authority + ("/" + path);
    FindSkips(authority, "/" + path, "/");
    assert "/" <= "/" + path;
  }

  /** With `user@` in the authority, the text after its `@` is kept. */
  lemma UserInfoAt(authority: string, path: string)
    requires '/' !in authority && Contains(authority, "@")
    ensures StripUserInfo(authority + "/" + path) == Some(HostOf(authority) + "/" + path)
  {
    var url := authority + "/" + path;
    SlashAfterAuthority(authority, path);
    assert url == authority + ("/" + path);
    FindWithin(authority, "/" + path, "@");
    var i := Find(authority, "@").value;
    assert url[i + 1..] == authority[i + 1..] + "/" + path;
  }

  /** Without `@` in the authority, the URL is kept whole. */
  lemma UserInfoAbsent(authority: string, path: string)
    requires '/' !in authority && !Contains(authority, "@")
    ensures StripUserInfo(authority + "/" + path) == Some(HostOf(authority) + "/" + path)
  {
    var url := authority + "/" + path;
    SlashAfterAuthority(authority, path);
    assert url == authority + ("/" + path);
    ContainsChar(authority, '@');
    FindSkips(authority, "/" + path, "@");
  }

  /** A URL with a scheme, `scheme://[user@]host/path`, keeps exactly `path`,
      whatever the user (a `user:token` pair included), for a host without `:`
      (see `SchemeUrlWithPort`). */
  lemma {:induction false} SchemeUrl(scheme: string, authority: string, path: string)
    requires ':' !in scheme
    requires '/' !in authority && ':' !in HostOf(authority)
    requires NoOuterSpace(scheme + "://" + authority + "/" + path)
    ensures RemotePath(scheme + "://" + authority + "/" + path) == Some(path)
  {
    var rest := authority + "/" + path;
    var url := scheme + "://" + authority + "/" + path;
    assert url == scheme + "://" + rest;
    StripUnchanged(url);
    SchemeSplit(url, scheme, rest);
    UserInfoDropped(authority, path);
    HostDropped(HostOf(authority), path);
  }

  /** The hosts of the examples hold no `/`, `:` or `@`. */
  lemma BareHost(host: string)
    requires host == "github.com" || host == "dev.azure.com"
    ensures '/' !in host && ':' !in host && '@' !in host
  {
  }

  /** `SchemeUrl` for an authority that is a bare host. */
  lemma PlainHostUrl(scheme: string, host: string, path: string)
    requires ':' !in scheme && '/' !in host && ':' !in host && '@' !in host
    requires NoOuterSpace(scheme + "://" + host + "/" + path)
    ensures RemotePath(scheme + "://" + host + "/" + path) == Some(path)
  {
    NotContains(host, "@");
    SchemeUrl(scheme, host, path);
  }

  /** A port is not recognised: in `scheme://[user@]host:port/path` the scp
      rewrite of lines 53-56 fires on the `:` after the host, so the port
      becomes the first component of the path. */
  lemma {:induction false} SchemeUrlWithPort(scheme: string, authority: string, host: string,
                                             port: string, path: string)
    requires ':' !in scheme && '/' !in authority
    requires HostOf(authority) == host + ":" + port
    requires '/' !in host && ':' !in host
    requires NoOuterSpace(scheme + "://" + authority + "/" + path)
    ensures RemotePath(scheme + "://" + authority + "/" + path) == Some(port + "/" + path)
  {
    var rest := authority + "/" + path;
    var url := scheme + "://" + authority + "/" + path;
    assert url == scheme + "://" + rest;
    StripUnchanged(url);
    SchemeSplit(url, scheme, rest);
    UserInfoDropped(authority, path);
    var tail := port + "/" + path;
    RegroupTail(host, ":", port, "/", path);
    ScpRewritten(host, tail);
    HostDropped(host, tail);
  }

  /** Five strings joined, regrouped after the second. */
  lemma RegroupTail(a: string, b: string, c: string, d: string, e: string)
    ensures a + b + c + d + e == a + b + (c + d + e)
  {
  }

  /** Strings joined left to right, regrouped to the right. */
  lemma Regroup(a: string, b: string, c: string, d: string)
    ensures a + b + c + d == a + (b + (c + d))
  {
  }

  /** So `ssh://git@host:22/repo.git` gives the slug `22/repo`: the port
      stands in for the owner. */
  lemma PortTakenForOwner(scheme: string, authority: string, host: string, port: string,
                          name: string, path: string)
    requires ':' !in scheme && '/' !in authority
    requires HostOf(authority) == host + ":" + port
    requires '/' !in host && ':' !in host && IsCleanSegment(port)
    requires name != "" && '/' !in name && path == name + ".git"
    requires NoOuterSpace(scheme + "://" + authority + "/" + path)
    ensures NormaliseRemote(scheme + "://" + authority + "/" + path) == Slug(port + "/" + name)
  {
    SchemeUrlWithPort(scheme, authority, host, port, path);
    assert '/' !in port by {
      assert forall k :: 0 <= k < |port| ==> port[k] == (host + ":" + port)[|host| + 1 + k];
    }
    DotGitPath(port, name, port + "/" + path);
  }

  /** The text after the first `://` of `scheme://rest`, when the scheme has
      no `:`, is `rest`. */
  lemma SchemeSplit(url: string, scheme: string, rest: string)
    requires ':' !in scheme && url == scheme + "://" + rest
    ensures Contains(url, "://") && After(url, "://") == rest
  {
    assert url == scheme + ("://" + rest);
    FindSkips(scheme, "://" + rest, "://");
    assert "://" <= "://" + rest;
    assert Find(url, "://") == Some(|scheme|);
    assert url[|scheme| + 3..] == rest;
  }

  /** `host:path` holds no `://` when `path` has no `:` and does not start
      with `/`. */
  lemma {:induction false} ScpHasNoScheme(prefix: string, path: string)
    requires ':' !in prefix
    requires ':' !in path && (path == [] || path[0] != '/')
    ensures !Contains(prefix + ":" + path, "://")
  {
    assert prefix + ":" + path == prefix + (":" + path);
    FindSkips(prefix, ":" + path, "://");
    assert path != [] ==> (":" + path)[1] == path[0];
    assert (":" + path)[1..] == path;
    NotContains(path, "://");
  }

  /** `host:path` with no `/` in `host` is rewritten to `host/path`. */
  lemma {:induction false} ScpRewritten(prefix: string, path: string)
    requires '/' !in prefix && ':' !in prefix
    ensures ScpToPath(prefix + ":" + path) == prefix + "/" + path
  {
    var url := prefix + ":" + path;
    assert url == prefix + (":" + path);
    FindSkips(prefix, ":" + path, ":");
    assert ":" <= ":" + path;
    assert Find(url, ":") == Some(|prefix|);
    assert Before(url, ":") == prefix;
    ContainsChar(prefix, '/');
    assert After(url, ":") == path by {
      assert url[|prefix| + 1..] == path;
    }
  }

  /** An scp-like URL, `[user@]host:path`, keeps exactly `path`. */
  lemma {:induction false} ScpUrl(prefix: string, path: string)
    requires '/' !in prefix && ':' !in prefix
    requires ':' !in path && (path == [] || path[0] != '/')
    requires NoOuterSpace(prefix + ":" + path)
    ensures RemotePath(prefix + ":" + path) == Some(path)
  {
    var url := prefix + ":" + path;
    ScpHasNoScheme(prefix, path);
    NoSchemePath(url);
    ScpRewritten(prefix, path);
    HostDropped(prefix, path);
  }

  /** Without `://`, the path is the URL rewritten and with its host dropped. */
  lemma NoSchemePath(url: string)
    requires NoOuterSpace(url) && !Contains(url, "://")
    ensures RemotePath(url) == Some(DropHost(ScpToPath(url)))
  {
    StripUnchanged(url);
  }

  /** The slug splits back into one or two `/`-free components: the owner is
      the clean component before the last one, and the repository is the last
      clean component with `.git` removed. Only that removal, done after
      filtering, can leave an empty or noise repository component (see
      `EmptyRepoComponent` and `NoiseRepoComponent`). */
  lemma {:induction false} SlugComponents(path: string)
    requires SlugFromPath(path).Slug?
    ensures var parts := Split(SlugFromPath(path).slug, '/');
            var filtered := CleanSegments(Split(path, '/'));
            filtered != []
            && parts == SlugParts(filtered)
            && (|parts| == 2 ==> IsCleanSegment(parts[0]))
  {
    var segs := Split(path, '/');
    var filtered := CleanSegments(segs);
    CleanSegmentsKept(segs);
    assert forall k :: 0 <= k < |filtered| ==> '/' !in filtered[k] by {
      forall k | 0 <= k < |filtered| ensures '/' !in filtered[k] {
        assert filtered[k] in segs;
      }
    }
    assert SlugFromPath(path) == SlugOfClean(filtered);
    SlugOfCleanParts(filtered);
  }

  /** The last two kept components, or the only one, with `.git` removed
      from the last: the parts the slug is made of. */
  function SlugParts(filtered: seq<string>): seq<string>
    requires filtered != []
  {
    var repo := DropGitSuffix(filtered[|filtered| - 1]);
    if |filtered| >= 2 then [filtered[|filtered| - 2], repo] else [repo]
  }

  /** The slug of filtered components splits back into the last one or two,
      `.git` removed from the last. */
  lemma SlugOfCleanParts(filtered: seq<string>)
    requires filtered != []
    requires forall k :: 0 <= k < |filtered| ==> IsCleanSegment(filtered[k]) && '/' !in filtered[k]
    ensures var parts := Split(SlugOfClean(filtered).slug, '/');
            parts == SlugParts(filtered)
            && (|parts| == 2 ==> IsCleanSegment(parts[0]))
  {
    var last := filtered[|filtered| - 1];
    var repo := DropGitSuffix(last);
    assert '/' !in repo by {
      if EndsWith(last, ".git") {
        assert forall k :: 0 <= k < |repo| ==> repo[k] == last[k];
      }
    }
    if |filtered| >= 2 {
      var owner := filtered[|filtered| - 2];
      assert [owner, repo][1..] == [repo];
      assert Join([owner, repo], '/') == owner + "/" + repo;
      SplitJoin([owner, repo], '/');
    } else {
      assert Join([repo], '/') == repo;
      SplitJoin([repo], '/');
    }
  }

  /** A path of two clean components is `owner/repo`, with `.git` dropped
      from the repository. */
  lemma {:induction false} TwoComponentPath(owner: string, repo: string, path: string)
    requires IsCleanSegment(owner) && IsCleanSegment(repo)
    requires '/' !in owner && '/' !in repo
    requires path == owner + "/" + repo
    ensures SlugFromPath(path) == Slug(owner + "/" + DropGitSuffix(repo))
  {
    var parts := [owner, repo];
    assert parts[1..] == [repo];
    assert Join(parts, '/') == path;
    SplitJoin(parts, '/');
    assert parts[1..][1..] == [];
    assert CleanSegments(parts) == parts;
  }

  /** `repo.git` loses its suffix. */
  lemma RepoDotGit()
    ensures DropGitSuffix("repo.git") == "repo"
    ensures DropGitSuffix("repo") == "repo"
  {
    DotGitDropped("repo");
    assert "repo" + ".git" == "repo.git";
    assert !EndsWith("repo", ".git");
  }

  /** `NAME.git` is never noise and loses exactly its suffix. */
  lemma DotGitDropped(name: string)
    requires name != ""
    ensures IsCleanSegment(name + ".git")
    ensures DropGitSuffix(name + ".git") == name
  {
    assert |name + ".git"| > 4;
    assert (name + ".git")[|name|..] == ".git";
    assert (name + ".git")[..|name|] == name;
  }

  /** `owner/NAME.git` gives the slug `owner/NAME`. */
  lemma DotGitPath(owner: string, name: string, path: string)
    requires IsCleanSegment(owner) && name != ""
    requires '/' !in owner && '/' !in name
    requires path == owner + "/" + (name + ".git")
    ensures SlugFromPath(path) == Slug(owner + "/" + name)
  {
    DotGitDropped(name);
    TwoComponentPath(owner, name + ".git", path);
  }

  /** The path `org/repo.git` (or `org/repo`) gives the slug `org/repo`. */
  lemma OrgRepoPath(path: string)
    requires path == "org/repo.git" || path == "org/repo"
    ensures SlugFromPath(path) == Slug("org/repo")
  {
    if path == "org/repo.git" {
      OrgRepoGit(path);
    } else {
      OrgRepoPlain(path);
    }
  }

  /** `org/repo.git` gives `org/repo`. */
  lemma OrgRepoGit(path: string)
    requires path == "org/repo.git"
    ensures SlugFromPath(path) == Slug("org/repo")
  {
    assert path == "org" + "/" + ("repo" + ".git");
    DotGitPath("org", "repo", path);
    OrgSlashRepo();
  }

  /** The slug text of the GitHub examples. A proof aid only: it hands the
      solver this equality of string literals so that it need not work it
      out inside larger proofs. */
  lemma OrgSlashRepo()
    ensures "org" + "/" + "repo" == "org/repo"
  {
  }

  /** `org/repo` gives itself. */
  lemma OrgRepoPlain(path: string)
    requires path == "org/repo"
    ensures SlugFromPath(path) == Slug("org/repo")
  {
    TwoComponentPath("org", "repo", path);
    RepoDotGit();
  }

  /** The three remote forms of the same GitHub repository all normalise to
      exactly `org/repo`. */
  lemma GitHubRemotes(remote: string)
    requires remote == "git@github.com:org/repo.git"
             || remote == "https://github.com/org/repo.git"
             || remote == "https://github.com/org/repo"
    ensures NormaliseRemote(remote) == Slug("org/repo")
  {
    var path := if remote == "https://github.com/org/repo" then "org/repo" else "org/repo.git";
    if remote == "git@github.com:org/repo.git" {
      GitHubScp(remote);
    } else {
      GitHubHttps(remote, path);
    }
    OrgRepoPath(path);
  }

  /** `git@github.com:PATH` keeps `PATH`. */
  lemma GitHubScp(remote: string)
    requires remote == "git@github.com:org/repo.git"
    ensures RemotePath(remote) == Some("org/repo.git")
  {
    assert remote == "git@github.com" + ":" + "org/repo.git";
    ScpUrl("git@github.com", "org/repo.git");
  }

  /** `https://github.com/PATH` keeps `PATH`. */
  lemma GitHubHttps(remote: string, path: string)
    requires path != [] && !IsSpace(path[|path| - 1])
    requires remote == "https://github.com/" + path
    ensures RemotePath(remote) == Some(path)
  {
    assert remote == "https" + "://" + "github.com" + "/" + path;
    BareHost("github.com");
    PlainHostUrl("https", "github.com", path);
  }

  /** Host-specific noise disappears: `_git` in an Azure DevOps remote. */
  lemma AzureRemote(remote: string, path: string)
    requires path == "org/project/_git/repo" && remote == "https://dev.azure.com/" + path
    ensures NormaliseRemote(remote) == Slug("project/repo")
  {
    AzureHttps(remote, path);
    AzurePath(path);
  }

  /** `https://dev.azure.com/PATH` keeps `PATH`. */
  lemma AzureHttps(remote: string, path: string)
    requires path != [] && !IsSpace(path[|path| - 1])
    requires remote == "https://dev.azure.com/" + path
    ensures RemotePath(remote) == Some(path)
  {
    assert remote == "https" + "://" + "dev.azure.com" + "/" + path;
    BareHost("dev.azure.com");
    PlainHostUrl("https", "dev.azure.com", path);
  }

  /** The path of the Azure DevOps example. */
  lemma AzurePath(path: string)
    requires path == "org/project/_git/repo"
    ensures SlugFromPath(path) == Slug("project/repo")
  {
    AzureSplit(path);
    AzureSlug(path);
    ProjectRepo();
  }

  /** The components of the Azure DevOps example. */
  lemma AzureSplit(path: string)
    requires path == "org/project/_git/repo"
    ensures Split(path, '/') == ["org", "project", "_git", "repo"]
  {
    var parts := ["org", "project", "_git", "repo"];
    assert parts[1..] == ["project", "_git", "repo"];
    assert parts[1..][1..] == ["_git", "repo"];
    assert parts[1..][1..][1..] == ["repo"];
    assert Join(parts, '/') == path;
    SplitJoin(parts, '/');
  }

  /** `_git` is filtered out of the Azure DevOps components. */
  lemma AzureSlug(path: string)
    requires Split(path, '/') == ["org", "project", "_git", "repo"]
    ensures SlugFromPath(path) == Slug("project" + "/" + "repo")
  {
    NoiseThirdPath(path, "org", "project", "_git", "repo");
  }

  /** The slug text of the Azure DevOps example. A proof aid only, like
      `OrgSlashRepo`. */
  lemma ProjectRepo()
    ensures "project" + "/" + "repo" == "project/repo"
  {
  }

  /** Four components whose third is noise give the second and the last. */
  lemma NoiseThirdPath(path: string, a: string, b: string, c: string, d: string)
    requires Split(path, '/') == [a, b, c, d]
    requires IsCleanSegment(a) && IsCleanSegment(b) && !IsCleanSegment(c) && IsCleanSegment(d)
    requires !EndsWith(d, ".git")
    ensures SlugFromPath(path) == Slug(b + "/" + d)
  {
    NoiseThirdDropped(a, b, c, d);
    var filtered := [a, b, d];
    assert filtered[|filtered| - 2] == b && filtered[|filtered| - 1] == d;
  }

  /** Filtering keeps the clean components of four and drops the third. */
  lemma NoiseThirdDropped(a: string, b: string, c: string, d: string)
    requires IsCleanSegment(a) && IsCleanSegment(b) && !IsCleanSegment(c) && IsCleanSegment(d)
    ensures CleanSegments([a, b, c, d]) == [a, b, d]
  {
    CleanCons(d, []);
    CleanCons(c, [d]);
    CleanCons(b, [c, d]);
    CleanCons(a, [b, c, d]);
    assert [a] + [b, c, d] == [a, b, c, d];
  }

  /** Filtering one component in front of others. */
  lemma CleanCons(seg: string, segs: seq<string>)
    ensures CleanSegments([seg] + segs)
            == (if IsCleanSegment(seg) then [seg] + CleanSegments(segs) else CleanSegments(segs))
  {
    assert ([seg] + segs)[1..] == segs;
  }



  /** Only `_git` is filtered out of the Azure DevOps components. */
  lemma AzureClean()
    ensures CleanSegments(["org", "project", "_git", "repo"]) == ["org", "project", "repo"]
  {
    var parts := ["org", "project", "_git", "repo"];
    assert parts[1..][1..][1..][1..] == [];
  }

  /** The `.git` removal comes after filtering, so the repository component
      can come out empty: `https://github.com/org/.git` gives `org/`. */
  lemma EmptyRepoComponent(owner: string, path: string, remote: string)
    requires IsCleanSegment(owner) && '/' !in owner
    requires path == owner + "/" + ".git" && remote == "https://github.com/" + path
    ensures NormaliseRemote(remote) == Slug(owner + "/")
  {
    assert path[|path| - 1] == 't';
    GitHubHttps(remote, path);
    EmptyRepoPath(owner, path);
  }

  /** The path half of `EmptyRepoComponent`. */
  lemma EmptyRepoPath(owner: string, path: string)
    requires IsCleanSegment(owner) && '/' !in owner
    requires path == owner + "/" + ".git"
    ensures SlugFromPath(path) == Slug(owner + "/")
  {
    TwoComponentPath(owner, ".git", path);
    GitSuffixOnly();
  }

  /** For the same reason the repository component can come out as a noise
      word: `https://github.com/org/v3.git` gives `org/v3`. */
  lemma NoiseRepoComponent(owner: string, path: string, remote: string)
    requires IsCleanSegment(owner) && '/' !in owner
    requires path == owner + "/" + "v3.git" && remote == "https://github.com/" + path
    ensures NormaliseRemote(remote) == Slug(owner + "/" + "v3")
  {
    assert path[|path| - 1] == 't';
    GitHubHttps(remote, path);
    NoiseRepoPath(owner, path);
  }

  /** The path half of `NoiseRepoComponent`. */
  lemma NoiseRepoPath(owner: string, path: string)
    requires IsCleanSegment(owner) && '/' !in owner
    requires path == owner + "/" + "v3.git"
    ensures SlugFromPath(path) == Slug(owner + "/" + "v3")
  {
    TwoComponentPath(owner, "v3.git", path);
    GitSuffixOnly();
  }

  /** `.git` and `v3.git` lose their suffix. */
  lemma GitSuffixOnly()
    ensures DropGitSuffix(".git") == ""
    ensures DropGitSuffix("v3.git") == "v3"
  {
    assert ".git"[..0] == "";
    assert "v3.git"[..2] == "v3";
  }

  /** A scheme URL with a user but no `/` makes `url.index("/")` raise. */
  lemma UserWithoutSlashRaises(remote: string)
    requires remote == "ssh://git@host"
    ensures NormaliseRemote(remote) == UncaughtValueError
  {
    StripUnchanged(remote);
    SshScheme(remote);
    UserNoSlash("git@host");
  }

  /** `git@host` has an `@` and no `/`. */
  lemma UserNoSlash(authority: string)
    requires authority == "git@host"
    ensures Contains(authority, "@") && !Contains(authority, "/")
  {
    FindFirst(authority, "@");
    assert OccursAt(authority, "@", 3);
    NotContains(authority, "/");
  }

  /** The scheme of the `ssh://git@host` example. */
  lemma SshScheme(url: string)
    requires url == "ssh://git@host"
    ensures Contains(url, "://") && After(url, "://") == "git@host"
  {
    SchemeSplit(url, "ssh", "git@host");
  }

  /** `_detect_repository_url`: `None` when the origin lookup fails or is
      empty, otherwise the normalised slug. */
  function DetectRepositoryUrl(git: Git): (r: SlugResult)
    ensures var o := RunGitCommand(git(RemoteGetUrlOrigin));
            (!o.ok || o.out == "") ==> r == NotDetected
    ensures var o := RunGitCommand(git(RemoteGetUrlOrigin));
            o.ok && o.out != "" ==> r == NormaliseRemote(o.out)
  {
    var o := RunGitCommand(git(RemoteGetUrlOrigin));
    if !o.ok || o.out == "" then NotDetected else NormaliseRemote(o.out)
  }

  /** `_get_remote_url`: the origin URL as git reports it, `None` on failure. */
  function GetRemoteUrl(git: Git): (r: Option<string>)
    ensures r.Some? <==> RunGitCommand(git(RemoteGetUrlOrigin)).ok
    ensures r.Some? ==> r.value == RunGitCommand(git(RemoteGetUrlOrigin)).out
    ensures r.Some? ==> git(RemoteGetUrlOrigin).Exited?
                        && r.value == Strip(git(RemoteGetUrlOrigin).stdout)
  {
    var o := RunGitCommand(git(RemoteGetUrlOrigin));
    if o.ok then Some(o.out) else None
  }

  // ------------------------------------------------------ default branch

  /** `out.split("/")[-1]`: the longest suffix of `s` without `/`. */
  function LastSegment(s: string): (r: string)
    ensures '/' !in r
    ensures EndsWith(s, r)
    ensures |r| < |s| ==> s[|s| - |r| - 1] == '/'
  {
    SplitLast(s, '/');
    LastPieceFree(s, '/');
    LastPiece(s, '/')
  }

  /** The literal part of the regular expression `HEAD branch:\s*(\S+)`. */
  const HeadBranchLabel: string := "HEAD branch:"

  /** End of the run of whitespace starting at `i` (`\s*`, greedy). */
  function SkipSpace(s: string, i: nat): (j: nat)
    requires i <= |s|
    ensures i <= j <= |s|
    ensures forall k :: i <= k < j ==> IsSpace(s[k])
    ensures j < |s| ==> !IsSpace(s[j])
    decreases |s| - i
  {
    if i < |s| && IsSpace(s[i]) then SkipSpace(s, i + 1) else i
  }

  /** End of the run of non-whitespace starting at `i` (`\S*`, greedy). */
  function SkipNonSpace(s: string, i: nat): (j: nat)
    requires i <= |s|
    ensures i <= j <= |s|
    ensures forall k :: i <= k < j ==> !IsSpace(s[k])
    ensures j < |s| ==> IsSpace(s[j])
    decreases |s| - i
  {
    if i < |s| && !IsSpace(s[i]) then SkipNonSpace(s, i + 1) else i
  }

  /** The pattern matches at `p`: the label, then whitespace, then at least
      one non-whitespace character. Backtracking `\s*` cannot help when the
      greedy run reaches the end, since `\S` never matches whitespace. */
  predicate HeadBranchMatchesAt(s: string, p: nat) {
    p <= |s| && HeadBranchLabel <= s[p..] && SkipSpace(s, p + |HeadBranchLabel|) < |s|
  }

  /** `group(1)` of the match at `p`. */
  function CapturedBranch(s: string, p: nat): (b: string)
    requires HeadBranchMatchesAt(s, p)
    ensures b != ""
    ensures forall k :: 0 <= k < |b| ==> !IsSpace(b[k])
  {
    var start := SkipSpace(s, p + |HeadBranchLabel|);
    s[start..SkipNonSpace(s, start)]
  }

  /** `re.search` from `from`: the first position where the pattern matches. */
  function SearchHeadBranch(s: string, from: nat): (r: Option<nat>)
    requires from <= |s|
    ensures r.Some? ==> from <= r.value && HeadBranchMatchesAt(s, r.value)
    ensures r.Some? ==> forall q :: from <= q < r.value ==> !HeadBranchMatchesAt(s, q)
    ensures r.None? ==> forall q :: from <= q <= |s| ==> !HeadBranchMatchesAt(s, q)
    decreases |s| - from
  {
    if HeadBranchMatchesAt(s, from) then Some(from)
    else if from == |s| then None
    else SearchHeadBranch(s, from + 1)
  }

  /** A ref ending in `/name` yields `name`: `refs/remotes/origin/main` gives
      `main`. */
  lemma LastSegmentOfRef(prefix: string, name: string, s: string)
    requires '/' !in name
    requires s == prefix + "/" + name
    ensures LastSegment(s) == name
  {
    var r := LastSegment(s);
    assert s[|s| - |name| - 1] == '/';
    assert r == s[|s| - |r|..] == name;
  }

  /** `re.search(r"HEAD branch:\s*(\S+)", out).group(1)`, if it matches. */
  function HeadBranchOf(out: string): (r: Option<string>)
    ensures r.None? <==> forall q :: 0 <= q <= |out| ==> !HeadBranchMatchesAt(out, q)
  {
    match SearchHeadBranch(out, 0)
    case None => None
    case Some(p) => Some(CapturedBranch(out, p))
  }

  /** In the output of `git remote show origin`, a `HEAD branch:` label
      followed by whitespace, which may include line breaks, and a branch
      name captures exactly that name, whatever lines come before it, as long
      as the pattern matches nowhere earlier. */
  lemma HeadBranchLine(prefix: string, ws: string, name: string, rest: string)
    requires forall k :: 0 <= k < |ws| ==> IsSpace(ws[k])
    requires name != [] && forall k :: 0 <= k < |name| ==> !IsSpace(name[k])
    requires rest == [] || IsSpace(rest[0])
    requires forall q :: 0 <= q < |prefix| ==>
               !HeadBranchMatchesAt(prefix + (HeadBranchLabel + ws + name + rest), q)
    ensures HeadBranchOf(prefix + (HeadBranchLabel + ws + name + rest)) == Some(name)
  {
    var s := prefix + (HeadBranchLabel + ws + name + rest);
    HeadBranchAt(s, prefix, ws, name, rest);
    var r := SearchHeadBranch(s, 0);
    assert r.Some? && r.value == |prefix|;
  }

  /** The label, whitespace and a name after `prefix` match there and
      capture the name. */
  lemma HeadBranchAt(s: string, prefix: string, ws: string, name: string, rest: string)
    requires forall k :: 0 <= k < |ws| ==> IsSpace(ws[k])
    requires name != [] && forall k :: 0 <= k < |name| ==> !IsSpace(name[k])
    requires rest == [] || IsSpace(rest[0])
    requires s == prefix + (HeadBranchLabel + ws + name + rest)
    ensures HeadBranchMatchesAt(s, |prefix|) && CapturedBranch(s, |prefix|) == name
  {
    var p := |prefix|;
    var after := p + |HeadBranchLabel|;
    var start := after + |ws|;
    var t := ws + (name + rest);
    Regroup(HeadBranchLabel, ws, name, rest);
    DropFront(s, 0, prefix, HeadBranchLabel + t);
    assert HeadBranchLabel <= s[p..];
    DropFront(s, p, HeadBranchLabel, t);
    SpaceRun(s, after, ws, name + rest);
    DropFront(s, after, ws, name + rest);
    NonSpaceRun(s, start, name, rest);
    Captured(s, p, start, start + |name|);
  }

  /** The capture is the run between the two greedy ends. */
  lemma Captured(s: string, p: nat, start: nat, end: nat)
    requires HeadBranchMatchesAt(s, p)
    requires SkipSpace(s, p + |HeadBranchLabel|) == start && SkipNonSpace(s, start) == end
    ensures CapturedBranch(s, p) == s[start..end]
  {
  }

  /** What follows a known front of `s[i..]`. */
  lemma DropFront(s: string, i: nat, front: string, more: string)
    requires i <= |s| && s[i..] == front + more
    ensures s[i + |front|..] == more
  {
    assert s[i + |front|..] == s[i..][|front|..];
  }

  /** `\s*` from `i` stops right after a whitespace run followed by `more`,
      which starts with a non-space. */
  lemma SpaceRun(s: string, i: nat, ws: string, more: string)
    requires i <= |s| && s[i..] == ws + more
    requires forall k :: 0 <= k < |ws| ==> IsSpace(ws[k])
    requires more != [] && !IsSpace(more[0])
    ensures SkipSpace(s, i) == i + |ws|
  {
    assert s[i + |ws|] == more[0];
    assert forall k :: i <= k < i + |ws| ==> s[k] == ws[k - i];
  }

  /** `\S+` from `i` takes exactly a non-space run followed by `more`,
      which is empty or starts with whitespace. */
  lemma NonSpaceRun(s: string, i: nat, name: string, more: string)
    requires i <= |s| && s[i..] == name + more
    requires forall k :: 0 <= k < |name| ==> !IsSpace(name[k])
    requires more == [] || IsSpace(more[0])
    ensures SkipNonSpace(s, i) == i + |name| && s[i..i + |name|] == name
  {
    assert forall k :: i <= k < i + |name| ==> s[k] == name[k - i];
    assert i + |name| < |s| ==> s[i + |name|] == more[0];
  }

  /** `_detect_default_branch`: the last segment of the remote HEAD's
      symbolic ref, else the `HEAD branch:` line of `git remote show origin`. */
  function DetectDefaultBranch(git: Git): (r: Option<string>)
    ensures var sym := RunGitCommand(git(SymbolicRefOriginHead));
            sym.ok && sym.out != "" ==> r == Some(LastSegment(sym.out))
    ensures var sym := RunGitCommand(git(SymbolicRefOriginHead));
            var show := RunGitCommand(git(RemoteShowOrigin));
            !(sym.ok && sym.out != "") ==>
              r == (if show.ok && show.out != "" then HeadBranchOf(show.out) else None)
  {
    var sym := RunGitCommand(git(SymbolicRefOriginHead));
    if sym.ok && sym.out != "" then Some(LastSegment(sym.out))
    else
      var show := RunGitCommand(git(RemoteShowOrigin));
      if show.ok && show.out != "" then HeadBranchOf(show.out) else None
  }

  // ---------------------------------------------------- storage provider

  /** The storage providers the service knows; `ORCHESTRA` means none. */
  datatype Provider = GITHUB | GITLAB | AZURE_DEVOPS | BITBUCKET | ORCHESTRA

  /** The identifier sent in the import payload. */
  function ProviderName(p: Provider): string {
    match p
    case GITHUB => "GITHUB"
    case GITLAB => "GITLAB"
    case AZURE_DEVOPS => "AZURE_DEVOPS"
    case BITBUCKET => "BITBUCKET"
    case ORCHESTRA => "ORCHESTRA"
  }

  /** `any(host in url for host in hosts)`. */
  predicate ContainsAny(url: string, hosts: seq<string>) {
    exists k :: 0 <= k < |hosts| && Contains(url, hosts[k])
  }

  /** `_detect_storage_provider`: the first host group, in source order, one of
      whose fragments occurs in the lower-cased URL. */
  function DetectStorageProvider(url: Option<string>): (p: Provider)
    ensures url.None? || url.value == "" ==> p == ORCHESTRA
  {
    if url.None? || url.value == "" then ORCHESTRA
    else
      var u := Lower(url.value);
      if ContainsAny(u, ["github.com", ":github.com"]) then GITHUB
      else if ContainsAny(u, ["gitlab.com", ":gitlab.com"]) then GITLAB
      else if ContainsAny(u, ["dev.azure.com", "azure.com", "visualstudio.com"]) then AZURE_DEVOPS
      else if ContainsAny(u, ["bitbucket.org", ":bitbucket.org"]) then BITBUCKET
      else ORCHESTRA
  }

  /** The ordered classification spelled out: the fragments with a leading
      `:` add nothing, since each contains its unprefixed form, and neither
      does `dev.azure.com` beside `azure.com`. */
  lemma {:induction false} ProviderByHost(url: Option<string>)
    ensures var u := if url.Some? then Lower(url.value) else "";
            var github := Contains(u, "github.com");
            var gitlab := Contains(u, "gitlab.com");
            var azure := Contains(u, "azure.com") || Contains(u, "visualstudio.com");
            var bitbucket := Contains(u, "bitbucket.org");
            var p := DetectStorageProvider(url);
            (p == GITHUB <==> u != "" && github)
            && (p == GITLAB <==> u != "" && !github && gitlab)
            && (p == AZURE_DEVOPS <==> u != "" && !github && !gitlab && azure)
            && (p == BITBUCKET <==> u != "" && !github && !gitlab && !azure && bitbucket)
            && (p == ORCHESTRA <==> u == "" || (!github && !gitlab && !azure && !bitbucket))
  {
    if url.Some? && url.value != "" {
      var u := Lower(url.value);
      ProviderGroups(u);
    }
  }

  /** The four host groups of the source, each reduced to the fragments that
      decide it. */
  lemma ProviderGroups(u: string)
    ensures ContainsAny(u, ["github.com", ":github.com"]) <==> Contains(u, "github.com")
    ensures ContainsAny(u, ["gitlab.com", ":gitlab.com"]) <==> Contains(u, "gitlab.com")
    ensures ContainsAny(u, ["dev.azure.com", "azure.com", "visualstudio.com"])
            <==> Contains(u, "azure.com") || Contains(u, "visualstudio.com")
    ensures ContainsAny(u, ["bitbucket.org", ":bitbucket.org"]) <==> Contains(u, "bitbucket.org")
  {
    assert ":github.com" == ":" + "github.com";
    AnyOfPrefixed(u, ":", "github.com");
    assert ":gitlab.com" == ":" + "gitlab.com";
    AnyOfPrefixed(u, ":", "gitlab.com");
    assert ":bitbucket.org" == ":" + "bitbucket.org";
    AnyOfPrefixed(u, ":", "bitbucket.org");
    assert "dev.azure.com" == "dev." + "azure.com";
    AnyOfSubsumed(u, "dev.", "azure.com", "visualstudio.com");
  }

  /** A group `[host, prefix + host]` matches exactly when `host` occurs. */
  lemma AnyOfPrefixed(u: string, prefix: string, host: string)
    ensures ContainsAny(u, [host, prefix + host]) <==> Contains(u, host)
  {
    var hosts := [host, prefix + host];
    if Contains(u, host) {
      assert Contains(u, hosts[0]);
    }
    if ContainsAny(u, hosts) {
      var k :| 0 <= k < |hosts| && Contains(u, hosts[k]);
      if k == 1 {
        ContainsPart(u, prefix, host);
      }
    }
  }

  /** A group `[prefix + b, b, c]` matches exactly when `b` or `c` occurs. */
  lemma AnyOfSubsumed(u: string, prefix: string, b: string, c: string)
    ensures ContainsAny(u, [prefix + b, b, c]) <==> Contains(u, b) || Contains(u, c)
  {
    var hosts := [prefix + b, b, c];
    if Contains(u, b) {
      assert Contains(u, hosts[1]);
    }
    if Contains(u, c) {
      assert Contains(u, hosts[2]);
    }
    if ContainsAny(u, hosts) {
      var k :| 0 <= k < |hosts| && Contains(u, hosts[k]);
      if k == 0 {
        ContainsPart(u, prefix, b);
      }
    }
  }

  /** The classification ignores ASCII case. */
  lemma ProviderIgnoresCase(url: string)
    ensures DetectStorageProvider(Some(url)) == DetectStorageProvider(Some(Lower(url)))
  {
    LowerIdempotent(url);
  }

  // ---------------------------------------------------- YAML and schema

  /** `_load_yaml`: the parsed document, or the parser's error message. */
  datatype YamlLoad = Parsed(data: Value) | YamlError(message: string)

  /** The schema-validation request: the document, no credential. */
  function SchemaRequest(data: Value): Request {
    Request(Schema, Some(data), None)
  }

  /** Outcome of `_validate_yaml_with_api`. */
  datatype Validation = Valid | Invalid(detail: Detail)

  /** `_validate_yaml_with_api`: valid exactly when the schema endpoint answers
      200; a transport error and every other status are failures. */
  function ValidateYamlWithApi(data: Value, server: Request -> HttpOutcome): (v: Validation)
    ensures v.Valid? <==> server(SchemaRequest(data)).Response? && server(SchemaRequest(data)).status == 200
    ensures server(SchemaRequest(data)).TransportError? ==>
              v == Invalid(TransportDetail(server(SchemaRequest(data)).message))
  {
    match server(SchemaRequest(data))
    case TransportError(message) => Invalid(TransportDetail(message))
    case Response(status, json, text) =>
      if status == 200 then Valid
      else if json.Some? then Invalid(JsonDetail(json.value))
      else Invalid(TextDetail(text))
  }

  // ------------------------------------------------------------ handler

  /** What the handler is given or learns from its collaborators. */
  datatype ImportEnv = ImportEnv(
    fileExists: bool,                 // path.exists()
    yaml: YamlLoad,                   // _load_yaml(path)
    apiKey: Option<string>,           // ORCHESTRA_API_KEY
    repoRoot: Option<string>,         // _detect_repo_root(path.parent)
    git: Git,                         // git run in the repository root
    relativePath: Option<string>,     // path relative to the repository root
    warnings: seq<string>,            // _git_warnings(repo_root)
    server: Request -> HttpOutcome)

  /** Why the handler stopped before sending the import request. */
  datatype ImportFailure =
    | FileNotFound
    | InvalidYaml(error: string)
    | ValidationFailed(detail: Detail)
    | NotARepository
    | RemoteUrlValueError         // the uncaught `ValueError` of the normaliser
    | RepositoryUndetected        // no slug or no default branch
    | OutsideRepository

  /** The import request body: all five fields, all strings. */
  function ImportPayload(provider: Provider, repository: string, branch: string,
                         yamlPath: string, alias: string): (v: Value)
    ensures v.Object?
    ensures v.fields.Keys == {"storage_provider", "repository", "default_branch", "yaml_path", "alias"}
    ensures v.fields["storage_provider"] == Str(ProviderName(provider))
    ensures v.fields["repository"] == Str(repository) && v.fields["default_branch"] == Str(branch)
    ensures v.fields["yaml_path"] == Str(yamlPath) && v.fields["alias"] == Str(alias)
  {
    Object(map["storage_provider" := Str(ProviderName(provider)),
               "repository" := Str(repository),
               "default_branch" := Str(branch),
               "yaml_path" := Str(yamlPath),
               "alias" := Str(alias)])
  }

  /** The YAML file exists and parses. */
  predicate YamlLoaded(env: ImportEnv) {
    env.fileExists && env.yaml.Parsed?
  }

  /** ... and the schema endpoint accepts the document (`data or {}`). */
  predicate SchemaAccepted(env: ImportEnv) {
    YamlLoaded(env) && ValidateYamlWithApi(OrEmpty(env.yaml.data), env.server).Valid?
  }

  /** ... and the file lies in a git repository. */
  predicate InRepository(env: ImportEnv) {
    SchemaAccepted(env) && env.repoRoot.Some?
  }

  /** ... and both the slug and the default branch were detected. */
  predicate RepositoryDetected(env: ImportEnv) {
    InRepository(env) && DetectRepositoryUrl(env.git).Slug? && DetectDefaultBranch(env.git).Some?
  }

  /** The fail-fast precondition chain of lines 167-219: the first failing
      check, or the payload to send. Each failure is reported exactly when
      every earlier check passed and its own failed. */
  function ImportPlan(alias: string, env: ImportEnv): (r: Result<Value, ImportFailure>)
    ensures r == Failure(FileNotFound) <==> !env.fileExists
    ensures (r.Failure? && r.error.InvalidYaml?) <==> env.fileExists && env.yaml.YamlError?
    ensures (r.Failure? && r.error.ValidationFailed?) <==> YamlLoaded(env) && !SchemaAccepted(env)
    ensures r == Failure(NotARepository) <==> SchemaAccepted(env) && env.repoRoot.None?
    ensures r == Failure(RemoteUrlValueError) <==>
              InRepository(env) && DetectRepositoryUrl(env.git).UncaughtValueError?
    ensures r == Failure(RepositoryUndetected) <==>
              InRepository(env) && !DetectRepositoryUrl(env.git).UncaughtValueError?
              && !RepositoryDetected(env)
    ensures r == Failure(OutsideRepository) <==> RepositoryDetected(env) && env.relativePath.None?
    ensures r.Success? <==> RepositoryDetected(env) && env.relativePath.Some?
    ensures r.Success? ==>
              r.value == ImportPayload(DetectStorageProvider(GetRemoteUrl(env.git)),
                                       DetectRepositoryUrl(env.git).slug,
                                       DetectDefaultBranch(env.git).value,
                                       env.relativePath.value, alias)
  {
    if !env.fileExists then Failure(FileNotFound)
    else if env.yaml.YamlError? then Failure(InvalidYaml(env.yaml.message))
    else
      match ValidateYamlWithApi(OrEmpty(env.yaml.data), env.server)
      case Invalid(detail) => Failure(ValidationFailed(detail))
      case Valid =>
        if env.repoRoot.None? then Failure(NotARepository)
        else
          var slug := DetectRepositoryUrl(env.git);
          if slug.UncaughtValueError? then Failure(RemoteUrlValueError)
          else
            var branch := DetectDefaultBranch(env.git);
            if slug.NotDetected? || branch.None? then Failure(RepositoryUndetected)
            else if env.relativePath.None? then Failure(OutsideRepository)
            else
              var provider := DetectStorageProvider(GetRemoteUrl(env.git));
              Success(ImportPayload(provider, slug.slug, branch.value,
                                    env.relativePath.value, alias))
  }

  /** The scenario of a successful import: an scp-style GitHub origin and a
      remote HEAD on `main` give the payload `GITHUB`, `org/repo`, `main`. */
  lemma ImportSucceeds(alias: string, env: ImportEnv, remote: string, ref: string)
    requires remote == "git@github.com:org/repo.git" && ref == "refs/remotes/origin/main"
    requires YamlLoaded(env) && env.repoRoot.Some? && env.relativePath.Some?
    requires env.server(SchemaRequest(OrEmpty(env.yaml.data))) ==
             Response(200, Some(Object(map["ok" := Bool(true)])), "")
    requires env.git(RemoteGetUrlOrigin) == Exited(0, remote, "")
    requires env.git(SymbolicRefOriginHead) == Exited(0, ref, "")
    ensures ImportPlan(alias, env) ==
            Success(ImportPayload(GITHUB, "org/repo", "main", env.relativePath.value, alias))
  {
    ScenarioSlug(env.git, remote);
    ScenarioBranch(env.git, ref);
    ScenarioRemote(remote);
    GitHubOrigin(env.git, "git@", ":org/repo.git", remote);
  }

  /** The scenario's origin gives the slug `org/repo`. */
  lemma ScenarioSlug(git: Git, remote: string)
    requires remote == "git@github.com:org/repo.git"
    requires git(RemoteGetUrlOrigin) == Exited(0, remote, "")
    ensures DetectRepositoryUrl(git) == Slug("org/repo")
  {
    StripUnchanged(remote);
    GitHubRemotes(remote);
  }

  /** The scenario's remote HEAD gives the branch `main`. */
  lemma ScenarioBranch(git: Git, ref: string)
    requires ref == "refs/remotes/origin/main"
    requires git(SymbolicRefOriginHead) == Exited(0, ref, "")
    ensures DetectDefaultBranch(git) == Some("main")
  {
    StripUnchanged(ref);
    LastSegmentOfRef("refs/remotes/origin", "main", ref);
  }

  /** The scenario's origin, cut around its host. */
  lemma ScenarioRemote(remote: string)
    requires remote == "git@github.com:org/repo.git"
    ensures remote == "git@" + "github.com" + ":org/repo.git" && NoOuterSpace(remote)
  {
  }

  /** An origin that mentions `github.com` is classified as GitHub. */
  lemma GitHubOrigin(git: Git, pre: string, post: string, remote: string)
    requires remote == pre + "github.com" + post && NoOuterSpace(remote)
    requires git(RemoteGetUrlOrigin) == Exited(0, remote, "")
    ensures DetectStorageProvider(GetRemoteUrl(git)) == GITHUB
  {
    StripUnchanged(remote);
    GitHubHost(pre, post, remote);
    ProviderByHost(Some(remote));
  }

  /** `github.com` occurs in the lower-cased form of any URL that
      contains it. */
  lemma GitHubHost(pre: string, post: string, remote: string)
    requires remote == pre + "github.com" + post
    ensures Contains(Lower(remote), "github.com")
  {
    LowerConcat(pre + "github.com", post);
    LowerConcat(pre, "github.com");
    assert Lower("github.com") == "github.com";
    ContainsMiddle(Lower(remote), Lower(pre), "github.com", Lower(post));
  }

  /** The import request: the payload, with the credential when it is set. */
  function ImportRequest(payload: Value, apiKey: Option<string>): Request {
    Request(Import, Some(payload), BearerIfSet(apiKey))
  }

  /** How one invocation ends. */
  datatype ImportOutcome =
    | Aborted(failure: ImportFailure)
    | RequestFailed(message: string)
    | Imported(pipelineId: Option<Value>)   // 201: the id printed, or the fallback message
    | ImportFailed(status: int, detail: Detail)
    | BodyNotAnObject                       // 201 whose JSON body is not a dict: `.get` raises

  /** The process exit status of an outcome. */
  function ExitCode(o: ImportOutcome): (code: int)
    ensures code == 0 <==> o.Imported?
    ensures code == 0 || code == 1
  {
    if o.Imported? then 0 else 1
  }

  /** Lines 231-258: the response to the import request. Only 201 succeeds;
      the id shown is `pipeline_id`, else `id`; a body that is not JSON reads
      as `{}`. */
  function ImportResponse(h: HttpOutcome): (o: ImportOutcome)
    ensures o.Imported? <==> h.Response? && h.status == 201 && (h.json.None? || h.json.value.Object?)
    ensures o.Imported? && h.json.None? ==> o.pipelineId.None?
    ensures o.Imported? && h.json.Some? ==>
              o.pipelineId == FirstTruthy([Get(h.json.value.fields, "pipeline_id"),
                                           Get(h.json.value.fields, "id")])
  {
    match h
    case TransportError(message) => RequestFailed(message)
    case Response(status, json, text) =>
      if status == 201 then
        var body := if json.Some? then json.value else EmptyObject;
        if !body.Object? then BodyNotAnObject
        else Imported(FirstTruthy([Get(body.fields, "pipeline_id"), Get(body.fields, "id")]))
      else ImportFailed(status, if json.Some? then JsonDetail(json.value) else TextDetail(text))
  }

  /** The answers of the import tests: a 201 prints `pipeline_id`, or `id`
      when that is missing; a 201 with neither still succeeds; a 200 fails. */
  lemma ImportResponseExamples(id: string)
    requires id != ""
    ensures ImportResponse(Response(201, Some(Object(map["pipeline_id" := Str(id)])), ""))
            == Imported(Some(Str(id)))
    ensures ImportResponse(Response(201, Some(Object(map["id" := Str(id)])), ""))
            == Imported(Some(Str(id)))
    ensures ImportResponse(Response(201, None, "")) == Imported(None)
    ensures ExitCode(ImportResponse(Response(200, Some(Object(map["id" := Str(id)])), ""))) == 1
  {
    var vs := [Null, Str(id)];
    assert vs[1..] == [Str(id)];
  }

  /** The requests sent before the import one: the schema check, once the YAML
      has loaded. */
  function ValidationRequests(env: ImportEnv): seq<Request> {
    if env.fileExists && env.yaml.Parsed? then [SchemaRequest(OrEmpty(env.yaml.data))] else []
  }

  /** Lines 167-203 of `import_pipeline`: the checks, in order, stopping at
      the first that fails. `sent` lists the HTTP requests made on the way. */
  method CheckImport(alias: string, env: ImportEnv)
    returns (plan: Result<Value, ImportFailure>, sent: seq<Request>)
    ensures plan == ImportPlan(alias, env)
    ensures sent == ValidationRequests(env)
  {
    sent := [];
    if !env.fileExists {
      return Failure(FileNotFound), sent;
    }
    if env.yaml.YamlError? {
      return Failure(InvalidYaml(env.yaml.message)), sent;
    }
    var data := OrEmpty(env.yaml.data);
    sent := sent + [SchemaRequest(data)];
    var validation := ValidateYamlWithApi(data, env.server);
    if validation.Invalid? {
      return Failure(ValidationFailed(validation.detail)), sent;
    }
    if env.repoRoot.None? {
      return Failure(NotARepository), sent;
    }
    var slug := DetectRepositoryUrl(env.git);
    if slug.UncaughtValueError? {
      return Failure(RemoteUrlValueError), sent;
    }
    var branch := DetectDefaultBranch(env.git);
    if slug.NotDetected? || branch.None? {
      return Failure(RepositoryUndetected), sent;
    }
    if env.relativePath.None? {
      return Failure(OutsideRepository), sent;
    }
    var provider := DetectStorageProvider(GetRemoteUrl(env.git));
    plan := Success(ImportPayload(provider, slug.slug, branch.value, env.relativePath.value, alias));
  }

  /** `import_pipeline`: runs the checks, echoes the git warnings, sends the
      import request and classifies the answer. `sent` lists the HTTP
      requests made and `echoed` the warning lines. */
  method HandleImport(alias: string, env: ImportEnv)
    returns (outcome: ImportOutcome, sent: seq<Request>, echoed: seq<string>)
    ensures var plan := ImportPlan(alias, env);
            sent == ValidationRequests(env)
                    + (if plan.Success? then [ImportRequest(plan.value, env.apiKey)] else [])
    ensures var plan := ImportPlan(alias, env);
            plan.Failure? ==> outcome == Aborted(plan.error) && echoed == []
    ensures var plan := ImportPlan(alias, env);
            plan.Success? ==> echoed == Console.WarningLines(env.warnings)
                              && outcome == ImportResponse(env.server(ImportRequest(plan.value, env.apiKey)))
    ensures ExitCode(outcome) == 0 ==>
              ImportPlan(alias, env).Success?
              && var h := env.server(ImportRequest(ImportPlan(alias, env).value, env.apiKey));
                 h.Response? && h.status == 201
  {
    var plan;
    plan, sent := CheckImport(alias, env);
    echoed := [];
    if plan.Failure? {
      return Aborted(plan.error), sent, echoed;
    }
    echoed := Console.EchoWarnings(env.warnings);
    var request := ImportRequest(plan.value, env.apiKey);
    sent := sent + [request];
    outcome := ImportResponse(env.server(request));
  }
}
