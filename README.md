# orchestra-cli command core in Dafny

This project models the decision logic of three commands of the
`orchestra-cli` command-line client for the Orchestra pipeline service, and
proves properties about that logic.

- **`import-pipeline`** registers a pipeline whose YAML file lives in a git
  repository. To do so it works out:
  - the repository slug (`owner/repo`) from the `origin` remote URL;
  - the default branch, from `git symbolic-ref` or else `git remote show`;
  - the storage provider, from the hosting service named in the URL.
  It runs its checks in a fixed fail-fast order, sends one import request, and
  classifies the answer.
- **`create` / `update`** share helpers. They require an API key, load and
  validate the YAML document, build the upsert body, and read the pipeline id
  out of a success response.
- **`run`** shows the git warnings and a confirmation prompt. It builds the
  optional `{branch, commit}` body, starts the run, and reports the execution
  id.

## How it is modelled

- The collaborators are inputs to the model:
  - git is a total function from each command the file runs to the process
    result;
  - the HTTP server is a total function from the request sent to the outcome;
  - the YAML loader, the repository root, the relative path, the git warnings
    and the answer to the prompt are plain values.
- The handlers are methods. Each returns the requests it sent and the warning
  lines it echoed, and is proved against a pure specification (`ImportPlan`,
  `ImportResponse`, `RunPayload`, `RunResponse`).
- The Python `str` operations the normaliser relies on are written out in
  module `Strings`:
  - `strip`, with the full `isspace` set;
  - `lower`;
  - `in`, `index` and `split(sep, 1)`, through a first-occurrence search;
  - `split`;
  - `endswith`.

Modules:
- `Wrappers`
- `Strings`
- `Json`: values, truthiness and `dict.get`
- `Http`: requests and outcomes
- `Console`: the warning lines
- `ImportPipeline`
- `PipelineUpsert`
- `RunPipeline`

Behaviours of the code a reader may not expect:
- `://` is searched anywhere in the URL, not only as a leading scheme.
- A `user@` prefix is removed only after a scheme. An scp-style `git@host:`
  prefix goes with the host.
- A scheme URL with `@` but no `/` raises `ValueError`. It is not treated as
  undetected.
- A port is not recognised. In `ssh://git@host:22/repo.git` the scp rewrite
  fires on the `:` after the host, so the port becomes the owner and the slug
  is `22/repo` (`SchemeUrlWithPort`, `PortTakenForOwner`).
- The last component can come out empty or as a noise word, because `.git`
  is removed after filtering (`EmptyRepoComponent`, `NoiseRepoComponent`).
- `import` and `run` exit 0 on a success status even when the body is not
  JSON or has no id. A JSON body that is not an object makes `.get` raise.
- `run` and `import` send the bearer credential only when the key is set; they
  do not require it.

## Model

| member | source | states |
|---|---|---|
| ImportPipeline.RunGitCommand | orchestra_cli/src/import_pipeline.py:18-31 | success iff exit status 0, with stripped stdout; on failure the stripped stderr, or the stripped stdout when stderr is blank; the text of an exited process never has outer whitespace |
| ImportPipeline.StripUserInfo | orchestra_cli/src/import_pipeline.py:49-51 | the `ValueError` of `url.index("/")` happens exactly when the text has an `@` and no `/` |
| ImportPipeline.CleanSegments | orchestra_cli/src/import_pipeline.py:64-66 | the filter never lengthens the list (what it keeps, and in which order, is stated by the lemmas below) |
| ImportPipeline.CleanSegmentsKept | orchestra_cli/src/import_pipeline.py:64-66 | every kept component is non-empty, not `_git`/`scm`/`v3`, and comes from the input; every such input component is kept |
| ImportPipeline.CleanSegmentsAppend | orchestra_cli/src/import_pipeline.py:64-66 | filtering a concatenation is filtering each part and concatenating: order and multiplicity are kept |
| ImportPipeline.CleanSegmentsEmpty | orchestra_cli/src/import_pipeline.py:64-69 | nothing is kept exactly when no component is clean |
| ImportPipeline.CleanSingle | orchestra_cli/src/import_pipeline.py:64-66 | a single component is kept exactly when it is clean |
| ImportPipeline.CleanOnlyOne | orchestra_cli/src/import_pipeline.py:64-66 | one clean component among unclean ones is all that is kept |
| ImportPipeline.CleanEndsWithOne | orchestra_cli/src/import_pipeline.py:64-66 | when `segs[j]` is the only clean component from `i` on, the kept list is that of `segs[..i]` followed by `segs[j]` |
| ImportPipeline.CleanEndsWithTwo | orchestra_cli/src/import_pipeline.py:64-66 | when `segs[i]` and `segs[j]` are the only clean components from `i` on, the kept list ends with them, in that order |
| ImportPipeline.CleanCons | orchestra_cli/src/import_pipeline.py:64-66 | the filter keeps a leading component exactly when it is clean, and filters the rest the same way |
| ImportPipeline.DropGitSuffix | orchestra_cli/src/import_pipeline.py:72 | a name ending in `.git` loses exactly that suffix; any other name is unchanged |
| ImportPipeline.RemotePath | orchestra_cli/src/import_pipeline.py:44-61 | the host-free path is missing exactly when a scheme URL has `@` but no `/` after the scheme |
| ImportPipeline.NormaliseRemote | orchestra_cli/src/import_pipeline.py:44-80 | the uncaught `ValueError` happens exactly when the path cannot be extracted; otherwise the result is the slug of the extracted path |
| ImportPipeline.ScpToPath | orchestra_cli/src/import_pipeline.py:53-56 | when there is a `:` and no `/` before the first one, exactly that `:` becomes `/` and every other character is kept; otherwise the URL is unchanged |
| ImportPipeline.DropHost | orchestra_cli/src/import_pipeline.py:58-61 | with a `/`, the result is exactly the text after the first `/` (it ends the URL, follows a `/`, and no `/` comes before that one); without, the URL is unchanged |
| ImportPipeline.HostOf | orchestra_cli/src/import_pipeline.py:49-51 | with an `@`, the host is the text after the first `@`; without, the whole authority; it holds no character the authority lacks |
| ImportPipeline.HostDropped | orchestra_cli/src/import_pipeline.py:53-61 | `host/path`, with no `/` or `:` in the host, is not rewritten as scp syntax, and dropping the host leaves exactly `path` |
| ImportPipeline.UserInfoDropped | orchestra_cli/src/import_pipeline.py:49-51 | `user@` before the first `/` is removed; an `@` after it is kept |
| ImportPipeline.SlashAfterAuthority | orchestra_cli/src/import_pipeline.py:50 | `url.index("/")` of `authority/path` is the position right after an authority without `/` |
| ImportPipeline.UserInfoAt | orchestra_cli/src/import_pipeline.py:50-51 | with an `@` in the authority, the text after its first `@` is kept |
| ImportPipeline.UserInfoAbsent | orchestra_cli/src/import_pipeline.py:50 | with no `@` in the authority, the URL is kept whole even when the path holds an `@` |
| ImportPipeline.SchemeUrl | orchestra_cli/src/import_pipeline.py:44-61 | `scheme://[user[:token]@]host/path` keeps exactly `path`, for every scheme without `:`, every user part and every host without `:` |
| ImportPipeline.PlainHostUrl | orchestra_cli/src/import_pipeline.py:44-61 | `scheme://host/path` with a bare host keeps exactly `path` |
| ImportPipeline.SchemeUrlWithPort | orchestra_cli/src/import_pipeline.py:44-61 | `scheme://[user@]host:port/path` keeps `port/path`: the port becomes the first path component |
| ImportPipeline.PortTakenForOwner | orchestra_cli/src/import_pipeline.py:44-77 | `scheme://[user@]host:port/NAME.git` normalises to `port/NAME`, e.g. `ssh://git@host:22/repo.git` gives `22/repo` |
| ImportPipeline.NoSchemePath | orchestra_cli/src/import_pipeline.py:44-61 | a URL without `://` and without outer whitespace is rewritten as scp syntax, then its host is dropped |
| ImportPipeline.SchemeSplit | orchestra_cli/src/import_pipeline.py:47-48 | for a scheme without `:`, `://` is found and the text after it is the rest of the URL |
| ImportPipeline.ScpHasNoScheme | orchestra_cli/src/import_pipeline.py:47 | `host:path` with no `:` in the path and no leading `/` is not taken for a scheme URL |
| ImportPipeline.ScpRewritten | orchestra_cli/src/import_pipeline.py:53-56 | `host:path` with no `/` in the host becomes `host/path` |
| ImportPipeline.ScpUrl | orchestra_cli/src/import_pipeline.py:44-61 | an scp-style `[user@]host:path`, with no `/` or `:` before the `:`, no `:` in `path` and no leading `/`, keeps exactly `path` |
| ImportPipeline.SlugOfClean | orchestra_cli/src/import_pipeline.py:68-80 | no slug exactly when nothing was kept; the slug step never raises |
| ImportPipeline.SlugFromPath | orchestra_cli/src/import_pipeline.py:64-80 | no slug exactly when no component of `path.split("/")` is clean; the slug step never raises |
| ImportPipeline.SlugLastTwo | orchestra_cli/src/import_pipeline.py:64-77 | with `segs[j]` the last clean component and `segs[i]` the last clean one before it, the slug is `segs[i]/segs[j]`, `.git` dropped from `segs[j]` |
| ImportPipeline.SlugOfLastTwo | orchestra_cli/src/import_pipeline.py:71-77 | kept components ending in `owner, repo` give `owner/repo`, `.git` dropped from `repo` |
| ImportPipeline.SlugOneComponent | orchestra_cli/src/import_pipeline.py:64-80 | with exactly one clean component, the slug is that component alone, `.git` dropped |
| ImportPipeline.SlugComponents | orchestra_cli/src/import_pipeline.py:64-80 | a slug splits back into exactly the last two clean components of the path, or the only one, with `.git` removed from the last; the owner part is clean |
| ImportPipeline.SlugOfCleanParts | orchestra_cli/src/import_pipeline.py:71-80 | the slug of clean `/`-free components splits back into the last two, or the only one, with `.git` removed from the last |
| ImportPipeline.TwoComponentPath | orchestra_cli/src/import_pipeline.py:64-77 | a path of two clean components gives `owner/repo`, with `.git` dropped from the repository |
| ImportPipeline.RepoDotGit | orchestra_cli/src/import_pipeline.py:72 | `repo.git` becomes `repo`; `repo` stays |
| ImportPipeline.DotGitDropped | orchestra_cli/src/import_pipeline.py:66-72 | `NAME.git` is never a noise word and loses exactly its suffix |
| ImportPipeline.DotGitPath | orchestra_cli/src/import_pipeline.py:64-77 | `owner/NAME.git` gives `owner/NAME` |
| ImportPipeline.OrgRepoPath | orchestra_cli/src/import_pipeline.py:64-77 | `org/repo.git` and `org/repo` both give `org/repo` |
| ImportPipeline.OrgRepoGit | orchestra_cli/src/import_pipeline.py:64-77 | `org/repo.git` gives `org/repo` |
| ImportPipeline.OrgRepoPlain | orchestra_cli/src/import_pipeline.py:64-77 | `org/repo` gives itself |
| ImportPipeline.GitHubRemotes | orchestra_cli/src/import_pipeline.py:44-77 | `git@github.com:org/repo.git`, `https://github.com/org/repo.git` and `https://github.com/org/repo` all normalise to exactly `org/repo` |
| ImportPipeline.GitHubScp | orchestra_cli/src/import_pipeline.py:53-61 | the scp-style GitHub remote keeps the path `org/repo.git` |
| ImportPipeline.GitHubHttps | orchestra_cli/src/import_pipeline.py:46-61 | `https://github.com/PATH` keeps exactly `PATH` |
| ImportPipeline.AzureRemote | orchestra_cli/src/import_pipeline.py:44-77 | `https://dev.azure.com/org/project/_git/repo` normalises to `project/repo`: `_git` is dropped |
| ImportPipeline.AzureHttps | orchestra_cli/src/import_pipeline.py:46-61 | `https://dev.azure.com/PATH` keeps exactly `PATH` |
| ImportPipeline.AzurePath | orchestra_cli/src/import_pipeline.py:64-77 | the Azure DevOps path gives `project/repo` |
| ImportPipeline.AzureSplit | orchestra_cli/src/import_pipeline.py:64 | the Azure DevOps path splits into its four components |
| ImportPipeline.AzureSlug | orchestra_cli/src/import_pipeline.py:66-77 | once `_git` is filtered out, the last two components form the slug |
| ImportPipeline.AzureClean | orchestra_cli/src/import_pipeline.py:66 | only `_git` is filtered from the Azure DevOps components |
| ImportPipeline.NoiseThirdPath | orchestra_cli/src/import_pipeline.py:64-77 | four clean components but a noise third give the second and the last as the slug |
| ImportPipeline.NoiseThirdDropped | orchestra_cli/src/import_pipeline.py:66 | of four components with a noise third, the filter keeps the other three in order |
| ImportPipeline.EmptyRepoComponent | orchestra_cli/src/import_pipeline.py:64-77 | `https://github.com/OWNER/.git` gives `OWNER/`: the repository component comes out empty |
| ImportPipeline.EmptyRepoPath | orchestra_cli/src/import_pipeline.py:64-77 | the path `OWNER/.git` gives `OWNER/` |
| ImportPipeline.NoiseRepoComponent | orchestra_cli/src/import_pipeline.py:64-77 | `https://github.com/OWNER/v3.git` gives `OWNER/v3`: a noise word survives as the repository |
| ImportPipeline.NoiseRepoPath | orchestra_cli/src/import_pipeline.py:64-77 | the path `OWNER/v3.git` gives `OWNER/v3` |
| ImportPipeline.GitSuffixOnly | orchestra_cli/src/import_pipeline.py:72 | `.git` becomes empty and `v3.git` becomes `v3` |
| ImportPipeline.UserWithoutSlashRaises | orchestra_cli/src/import_pipeline.py:47-51 | `ssh://git@host` makes the normaliser raise `ValueError` |
| ImportPipeline.UserNoSlash | orchestra_cli/src/import_pipeline.py:50 | `git@host` has an `@` and no `/` |
| ImportPipeline.SshScheme | orchestra_cli/src/import_pipeline.py:47-48 | `ssh://git@host` has a scheme and leaves `git@host` |
| ImportPipeline.DetectRepositoryUrl | orchestra_cli/src/import_pipeline.py:38-41 | `None` when the origin lookup fails or is empty; otherwise the normalised slug of the origin URL |
| ImportPipeline.GetRemoteUrl | orchestra_cli/src/import_pipeline.py:83-88 | the origin URL is given exactly when git succeeds, and it is git's stripped standard output, unchanged |
| ImportPipeline.LastSegment | orchestra_cli/src/import_pipeline.py:96 | the result has no `/`, ends the ref, and is preceded by `/` unless it is the whole ref |
| ImportPipeline.LastSegmentOfRef | orchestra_cli/src/import_pipeline.py:93-96 | a ref ending in `/name` yields `name`, e.g. `refs/remotes/origin/main` gives `main` |
| ImportPipeline.SkipSpace | orchestra_cli/src/import_pipeline.py:100 | `\s*` runs greedily over whitespace and stops at the first non-space |
| ImportPipeline.SkipNonSpace | orchestra_cli/src/import_pipeline.py:100 | `\S+` runs greedily over non-whitespace and stops at the first space |
| ImportPipeline.CapturedBranch | orchestra_cli/src/import_pipeline.py:100-102 | the captured group is non-empty and holds no whitespace |
| ImportPipeline.SearchHeadBranch | orchestra_cli/src/import_pipeline.py:100 | `re.search` semantics: the first position where the pattern matches; none when it matches nowhere |
| ImportPipeline.HeadBranchOf | orchestra_cli/src/import_pipeline.py:100-102 | no branch exactly when the pattern matches at no position |
| ImportPipeline.HeadBranchLine | orchestra_cli/src/import_pipeline.py:100-102 | after any lines where the pattern does not match, `HEAD branch:` followed by any whitespace, line breaks included, and a name captures exactly that name |
| ImportPipeline.HeadBranchAt | orchestra_cli/src/import_pipeline.py:100-102 | the label, whitespace and a name after any prefix match at the end of the prefix and capture the name |
| ImportPipeline.SpaceRun | orchestra_cli/src/import_pipeline.py:100 | `\s*` stops exactly after a whitespace run followed by a non-space |
| ImportPipeline.NonSpaceRun | orchestra_cli/src/import_pipeline.py:100 | `\S+` takes exactly a non-space run followed by whitespace or the end |
| ImportPipeline.DetectDefaultBranch | orchestra_cli/src/import_pipeline.py:91-103 | a successful non-empty symbolic ref gives its last segment; otherwise the first `HEAD branch:` match of `remote show`; otherwise `None` |
| ImportPipeline.DetectStorageProvider | orchestra_cli/src/import_pipeline.py:106-108 | `None` or an empty URL gives `ORCHESTRA` |
| ImportPipeline.ProviderByHost | orchestra_cli/src/import_pipeline.py:106-118 | the ordered classification: GITHUB iff `github.com` occurs in the lower-cased URL; else GITLAB iff `gitlab.com`; else AZURE_DEVOPS iff `azure.com` or `visualstudio.com`; else BITBUCKET iff `bitbucket.org`; else ORCHESTRA |
| ImportPipeline.ProviderGroups | orchestra_cli/src/import_pipeline.py:110-117 | each host group matches exactly when its decisive fragment occurs; the `:`-prefixed and `dev.` fragments add nothing |
| ImportPipeline.AnyOfPrefixed | orchestra_cli/src/import_pipeline.py:110-116 | a group `[host, prefix + host]` matches exactly when `host` occurs |
| ImportPipeline.AnyOfSubsumed | orchestra_cli/src/import_pipeline.py:114 | a group `[prefix + host, host, other]` matches exactly when `host` or `other` occurs: the Azure DevOps group adds nothing with `dev.azure.com` |
| ImportPipeline.ProviderIgnoresCase | orchestra_cli/src/import_pipeline.py:109 | the classification of a URL equals that of its lower-cased form |
| ImportPipeline.ValidateYamlWithApi | orchestra_cli/src/import_pipeline.py:134-146 | valid exactly when the schema endpoint answers 200; a transport error is a failure carrying its message |
| ImportPipeline.ImportPayload | orchestra_cli/src/import_pipeline.py:213-219 | the import body is an object with exactly the five keys, each holding its value: provider name, repository, default branch, YAML path and alias |
| ImportPipeline.ImportPlan | orchestra_cli/src/import_pipeline.py:167-219 | each failure (file, YAML, validation, repository root, `ValueError`, slug or branch, path) is reported exactly when every earlier check passed and its own failed; success exactly when all pass, with the payload of the detected provider, slug, branch and path |
| ImportPipeline.ImportSucceeds | orchestra_cli/src/import_pipeline.py:167-219 | with origin `git@github.com:org/repo.git` and remote HEAD `refs/remotes/origin/main`, the payload is GITHUB, `org/repo`, `main` |
| ImportPipeline.ScenarioSlug | orchestra_cli/src/import_pipeline.py:38-80 | that origin gives the slug `org/repo` |
| ImportPipeline.ScenarioBranch | orchestra_cli/src/import_pipeline.py:91-96 | that remote HEAD gives the branch `main` |
| ImportPipeline.ScenarioRemote | orchestra_cli/src/import_pipeline.py:44 | that origin has no outer whitespace and contains `github.com` |
| ImportPipeline.GitHubOrigin | orchestra_cli/src/import_pipeline.py:209-211 | an origin containing `github.com` is classified GITHUB |
| ImportPipeline.GitHubHost | orchestra_cli/src/import_pipeline.py:109-110 | `github.com` survives lower-casing of any URL that contains it |
| ImportPipeline.ExitCode | orchestra_cli/src/import_pipeline.py:235-258 | exit 0 exactly for an import that succeeded, 1 otherwise |
| ImportPipeline.ImportResponse | orchestra_cli/src/import_pipeline.py:231-258 | success exactly on status 201 with a body that is an object or not JSON; the id is `pipeline_id`, else `id`, else none |
| ImportPipeline.ImportResponseExamples | orchestra_cli/src/import_pipeline.py:235-253 | a 201 prints `pipeline_id`, or `id` when that is absent; a 201 with no JSON still succeeds; a 200 exits 1 |
| ImportPipeline.CheckImport | orchestra_cli/src/import_pipeline.py:167-203 | the imperative chain of early exits returns exactly `ImportPlan`; the only request it sends is the schema check, once the YAML has loaded |
| ImportPipeline.HandleImport | orchestra_cli/src/import_pipeline.py:167-258 | no import request after any failure; on success the warnings are echoed and exactly one import request follows the schema check; exit 0 only on a 201 to that request |
| Console.WarningLines | orchestra_cli/src/import_pipeline.py:206-207 | one line per warning, in order, each `⚠ ` followed by the warning |
| Console.EchoWarnings | orchestra_cli/src/run_pipeline.py:28-29 | the loop echoes exactly `WarningLines` |
| Json.OrEmpty | orchestra_cli/src/import_pipeline.py:179 | `data or {}`: a truthy value unchanged, a falsy one replaced by `{}` |
| Json.Get | orchestra_cli/src/import_pipeline.py:240 | `dict.get`: the value for a present key, `None` for a missing one |
| Json.Truthy | orchestra_cli/src/import_pipeline.py:40 | a value is falsy exactly when it is one of `None`, `False`, `0`, `0.0`, `""`, `[]`, `{}` |
| Json.FirstTruthy | orchestra_cli/src/import_pipeline.py:240-241 | `a or b` then a truthiness test: the first truthy value, and nothing exactly when all are falsy |
| Http.BearerIfSet | orchestra_cli/src/import_pipeline.py:222-224 | the bearer credential is attached exactly when the key is set and non-empty |
| Strings.Strip | orchestra_cli/src/import_pipeline.py:44 | the result has no outer whitespace and is no longer than the input |
| Strings.StripOuter | orchestra_cli/src/import_pipeline.py:44 | the result is a slice of the input with only whitespace before and after it |
| Strings.StripUnchanged | orchestra_cli/src/import_pipeline.py:44 | `strip` leaves a string without outer whitespace unchanged |
| Strings.StripIdempotent | orchestra_cli/src/import_pipeline.py:44 | re-stripping git's already stripped output changes nothing |
| Strings.Lower | orchestra_cli/src/import_pipeline.py:109 | the same length, each ASCII capital mapped to its small letter |
| Strings.Find | orchestra_cli/src/import_pipeline.py:47-61 | an answered index is one where the pattern occurs, and the pattern fits there |
| Strings.FindFirst | orchestra_cli/src/import_pipeline.py:47-61 | the answered index is the first occurrence; nothing is answered exactly when the pattern occurs nowhere |
| Strings.FindSkips | orchestra_cli/src/import_pipeline.py:50-61 | a search for a pattern whose first character a prefix lacks runs past that prefix |
| Strings.FindWithin | orchestra_cli/src/import_pipeline.py:50 | a search finds an occurrence in a prefix before anything after it |
| Strings.ContainsChar | orchestra_cli/src/import_pipeline.py:47-60 | `c in s` for one character agrees with the search |
| Strings.Before | orchestra_cli/src/import_pipeline.py:48 | `split(sep, 1)[0]` is followed by `sep` in the string and does not contain it |
| Strings.After | orchestra_cli/src/import_pipeline.py:48 | the text before, the separator and the text after rebuild the string |
| Strings.Split | orchestra_cli/src/import_pipeline.py:64 | at least one piece, none containing the separator |
| Strings.JoinSplit | orchestra_cli/src/import_pipeline.py:64 | joining the pieces of `split` gives back the string |
| Strings.SplitJoin | orchestra_cli/src/import_pipeline.py:64 | splitting a join of separator-free pieces gives back the pieces |
| Strings.SplitLast | orchestra_cli/src/import_pipeline.py:96 | the last piece of `split` is a suffix preceded by the separator unless it is the whole string |
| Strings.LastPieceOfSplit | orchestra_cli/src/import_pipeline.py:96 | the text after the last separator is the last element of `split` |
| Strings.LastPieceFree | orchestra_cli/src/import_pipeline.py:96 | the last piece of `split` holds no separator |
| PipelineUpsert.RequireApiKey | orchestra_cli/src/pipeline_upsert.py:13-18 | fails exactly when the key is unset or empty; otherwise returns it unchanged |
| PipelineUpsert.RequiredKeyIsBearer | orchestra_cli/src/pipeline_upsert.py:13-18 | a key that passes the check is the bearer credential sent |
| PipelineUpsert.LoadValidatedPipelineData | orchestra_cli/src/pipeline_upsert.py:21-38 | file, then YAML, then validation, each failure reported exactly when the earlier steps passed; on success the result is `data or {}`, the same document the schema endpoint accepted with 200 |
| PipelineUpsert.LoadedDataIsTruthyOrEmpty | orchestra_cli/src/pipeline_upsert.py:31-38 | the loaded document is truthy or exactly `{}` |
| PipelineUpsert.ImportSharesLoading | orchestra_cli/src/pipeline_upsert.py:21-36 | `import-pipeline` fails its first three checks exactly as this helper does, and passes them exactly when it succeeds |
| PipelineUpsert.BuildUpsertPayload | orchestra_cli/src/pipeline_upsert.py:41-49 | keys `data`, `published`, `storage_provider`, plus `alias` exactly when one is given (even empty); data and flag unchanged, provider `ORCHESTRA` |
| PipelineUpsert.AliasOnlyAddsAlias | orchestra_cli/src/pipeline_upsert.py:47-49 | giving an alias adds that key and changes nothing else |
| PipelineUpsert.CreateAndUpdateBodies | orchestra_cli/src/pipeline_upsert.py:41-49 | the create body with alias `demo` and the update body without an alias, written out |
| PipelineUpsert.RequirePipelineIdFromSuccessResponse | orchestra_cli/src/pipeline_upsert.py:52-69 | an id exactly when the body is a JSON object with a truthy `id`, and it is that value; not JSON and non-object bodies are told apart |
| PipelineUpsert.OnlyIdConsulted | orchestra_cli/src/pipeline_upsert.py:63-69 | bodies that agree on `id` give the same result: no other key is read |
| RunPipeline.RunPayload | orchestra_cli/src/run_pipeline.py:37-41 | `branch` present iff the branch is set, with its value; likewise `commit`; no other key |
| RunPipeline.BuildRunPayload | orchestra_cli/src/run_pipeline.py:37-41 | the dict filled key by key equals `RunPayload` |
| RunPipeline.RunBody | orchestra_cli/src/run_pipeline.py:49 | no body exactly when the payload is empty; otherwise an object with the same keys and string values |
| RunPipeline.RunBodyCases | orchestra_cli/src/run_pipeline.py:37-49 | no body iff neither branch nor commit is set; with both, exactly the two entries |
| RunPipeline.ExecutionId | orchestra_cli/src/run_pipeline.py:62-63 | a chosen id is truthy |
| RunPipeline.ExecutionIdPrecedence | orchestra_cli/src/run_pipeline.py:62-63 | `execution_id`, then `run_id`, then `id`, whichever is first truthy; none when all three are falsy |
| RunPipeline.ExitCode | orchestra_cli/src/run_pipeline.py:57-77 | exit 0 exactly when the run started |
| RunPipeline.IsSuccessStatus | orchestra_cli/src/run_pipeline.py:57 | a status is a success exactly when its hundreds digit is 2 |
| RunPipeline.RunResponse | orchestra_cli/src/run_pipeline.py:57-77 | started exactly on a 2xx status whose body is an object or not JSON, with the precedence id; any other status fails with that status |
| RunPipeline.RunResponseExamples | orchestra_cli/src/run_pipeline.py:57-72 | 200 and 201 both start the run and print `execution_id`; 400 exits 1 |
| RunPipeline.HandleRun | orchestra_cli/src/run_pipeline.py:12-77 | the warnings and the prompt are shown exactly when a repository root has warnings; an interrupt there aborts with nothing sent; otherwise exactly one start request with the built body; exit 0 only on a 2xx answer |

## Left out

- Running the `git` executable, and the exception text of a launch failure, are not modelled. The process result is an input.
- `_detect_repo_root`, `_git_warnings` and the path computation with `relative_to` are not modelled. `orchestra_cli/utils/git.py` is not part of this model; the root, the warnings and "inside the repository or not" are inputs.
- YAML parsing with `yaml.safe_load` is not modelled. Its outcome is an input.
- HTTP transport, URLs, timeouts and the header dict are not modelled. The endpoint, the body and the bearer credential of each request are kept.
- The text and colours of messages are not modelled, apart from the warning and prompt lines. Neither is `json.dumps` or `indent_message` of failure details, nor the edit-URL message of `create`/`update`.
- ImportResponse: the id is returned as the JSON value, not rendered with `str()`.
- RunResponse: the id is returned as the JSON value, not rendered with `str()`.
- PipelineUpsert.RequirePipelineIdFromSuccessResponse: returns the JSON value, not `str(id)`.
- Strings.Lower: folds ASCII capitals only, not Python's full Unicode `lower()`.
- Json.Truthy: treats every `Float` by comparison with zero; NaN and floating-point formatting are not modelled.
- The order of keys in the JSON dicts is not modelled.
- `create_pipeline.py` and `update_pipeline.py` are not modelled beyond the helpers they call. What remains there is one status check per command (201 and 200).
- Typer's `exists=True` on `--path` (orchestra_cli/src/import_pipeline.py:151-159) rejects a missing file with a usage error, exit status 2, before the handler runs. The model starts in the handler, so its `FileNotFound` exit 1 stands for a file that disappears after the options are parsed.
- `cli.py` (command registration) and `utils/constants.py` (URL formatting) are not modelled.
