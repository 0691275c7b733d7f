/**
 * The `run` command (orchestra_cli/src/run_pipeline.py): echo the git
 * warnings and wait for confirmation, build the optional start payload, send
 * it, and report the execution id.
 */
module RunPipeline {
  import opened Wrappers
  import opened Json
  import opened Http
  import Console

  // ----------------------------------------------------------- payload

  /** Python truthiness of an optional string option. */
  predicate IsSet(s: Option<string>) {
    s.Some? && s.value != ""
  }

  /** The start payload: `branch` and `commit` exactly when they are set, and
      no other key. */
  function RunPayload(branch: Option<string>, commit: Option<string>): (payload: map<string, string>)
    ensures "branch" in payload <==> IsSet(branch)
    ensures "branch" in payload ==> payload["branch"] == branch.value
    ensures "commit" in payload <==> IsSet(commit)
    ensures "commit" in payload ==> payload["commit"] == commit.value
    ensures payload.Keys <= {"branch", "commit"}
  {
    var withBranch := if IsSet(branch) then map["branch" := branch.value] else map[];
    if IsSet(commit) then withBranch["commit" := commit.value] else withBranch
  }

  /** Lines 37-41: the payload dict filled key by key. */
  method BuildRunPayload(branch: Option<string>, commit: Option<string>)
    returns (payload: map<string, string>)
    ensures payload == RunPayload(branch, commit)
  {
    payload := map[];
    if IsSet(branch) {
      payload := payload["branch" := branch.value];
    }
    if IsSet(commit) {
      payload := payload["commit" := commit.value];
    }
  }

  /** `json=payload if payload else None`: an empty payload sends no body at
      all; otherwise every entry is sent as a string. */
  function RunBody(payload: map<string, string>): (body: Option<Value>)
    ensures body.None? <==> payload == map[]
    ensures body.Some? ==> body.value.Object? && body.value.fields.Keys == payload.Keys
    ensures body.Some? ==> forall k :: k in payload ==> body.value.fields[k] == Str(payload[k])
  {
    if payload == map[] then None else Some(Object(map k | k in payload :: Str(payload[k])))
  }

  /** The start request for `alias`. */
  function StartRequest(alias: string, payload: map<string, string>, apiKey: Option<string>): Request {
    Request(Start(alias), RunBody(payload), BearerIfSet(apiKey))
  }

  /** Without `--branch` and `--commit` (or with both empty) the request has
      no body; with both it carries exactly the two. */
  lemma RunBodyCases(branch: Option<string>, commit: Option<string>)
    ensures RunBody(RunPayload(branch, commit)).None? <==> !IsSet(branch) && !IsSet(commit)
    ensures IsSet(branch) && IsSet(commit) ==>
              RunBody(RunPayload(branch, commit))
              == Some(Object(map["branch" := Str(branch.value), "commit" := Str(commit.value)]))
  {
    var payload := RunPayload(branch, commit);
    if IsSet(branch) {
      assert "branch" in payload;
    } else if IsSet(commit) {
      assert "commit" in payload;
    }
    if IsSet(branch) && IsSet(commit) {
      var expected := map["branch" := Str(branch.value), "commit" := Str(commit.value)];
      var fields := RunBody(payload).value.fields;
      assert fields.Keys == expected.Keys;
      assert forall k :: k in fields ==> fields[k] == expected[k];
      assert fields == expected;
    }
  }

  // ---------------------------------------------------------- response

  /** Line 57: any 2xx status is a success, that is, a status whose
      hundreds digit is 2. */
  predicate IsSuccessStatus(status: int)
    ensures IsSuccessStatus(status) <==> status / 100 == 2
  {
    200 <= status < 300
  }

  /** `body.get("execution_id") or body.get("run_id") or body.get("id")`,
      followed by the truthiness test of line 63. */
  function ExecutionId(fields: map<string, Value>): (r: Option<Value>)
    ensures r.Some? ==> Truthy(r.value)
  {
    FirstTruthy([Get(fields, "execution_id"), Get(fields, "run_id"), Get(fields, "id")])
  }

  /** The precedence of the three keys: `execution_id`, then `run_id`, then
      `id`; nothing when all three are absent or falsy. */
  lemma {:induction false} ExecutionIdPrecedence(fields: map<string, Value>)
    ensures var e := Get(fields, "execution_id");
            var r := Get(fields, "run_id");
            var i := Get(fields, "id");
            ExecutionId(fields) ==
              (if Truthy(e) then Some(e)
               else if Truthy(r) then Some(r)
               else if Truthy(i) then Some(i)
               else None)
  {
    var vs := [Get(fields, "execution_id"), Get(fields, "run_id"), Get(fields, "id")];
    assert vs[1..] == [vs[1], vs[2]];
    assert vs[1..][1..] == [vs[2]];
    assert vs[1..][1..][1..] == [];
  }

  /** How one invocation ends. */
  datatype RunOutcome =
    | Aborted                                 // Ctrl+C at the prompt
    | RequestFailed(message: string)          // the transport raised
    | Started(executionId: Option<Value>)     // 2xx: the id printed, or "Run started"
    | RunFailed(status: int)                  // any other status
    | ResponseNotObject                       // 2xx whose JSON is not a dict: `.get` raises

  /** The process exit status of an outcome. */
  function ExitCode(o: RunOutcome): (code: int)
    ensures code == 0 <==> o.Started?
    ensures code == 0 || code == 1
  {
    if o.Started? then 0 else 1
  }

  /** Lines 57-77: a 2xx answer starts the run whatever its body; a body that
      is not JSON reads as `{}`. */
  function RunResponse(h: HttpOutcome): (o: RunOutcome)
    ensures o.Started? <==>
              h.Response? && IsSuccessStatus(h.status) && (h.json.None? || h.json.value.Object?)
    ensures o.Started? && h.json.None? ==> o.executionId.None?
    ensures o.Started? && h.json.Some? ==> o.executionId == ExecutionId(h.json.value.fields)
    ensures h.Response? && !IsSuccessStatus(h.status) ==> o == RunFailed(h.status)
    ensures h.TransportError? ==> o == RequestFailed(h.message)
  {
    match h
    case TransportError(message) => RequestFailed(message)
    case Response(status, json, text) =>
      if IsSuccessStatus(status) then
        var body := if json.Some? then json.value else EmptyObject;
        if !body.Object? then ResponseNotObject else Started(ExecutionId(body.fields))
      else RunFailed(status)
  }

  /** The answers of the two run tests: 200 and 201 both start the run and
      print the `execution_id`; 400 fails. */
  lemma RunResponseExamples(id: string)
    requires id != ""
    ensures RunResponse(Response(200, Some(Object(map["execution_id" := Str(id)])), ""))
            == Started(Some(Str(id)))
    ensures RunResponse(Response(201, Some(Object(map["execution_id" := Str(id)])), ""))
            == Started(Some(Str(id)))
    ensures ExitCode(RunResponse(Response(400, Some(Object(map["detail" := Str("bad")])), ""))) == 1
  {
    ExecutionIdPrecedence(map["execution_id" := Str(id)]);
  }

  // ------------------------------------------------------------ handler

  /** What the blocking `input()` gives back. */
  datatype PromptAnswer = Continue | Interrupt

  /** What the handler is given or learns from its collaborators. */
  datatype RunEnv = RunEnv(
    apiKey: Option<string>,            // ORCHESTRA_API_KEY
    repoRoot: Option<string>,          // _detect_repo_root(cwd)
    warnings: seq<string>,             // _git_warnings(repo_root), when there is a root
    answer: PromptAnswer,              // the outcome of input()
    server: Request -> HttpOutcome)

  /** The confirmation prompt is shown exactly when a repository root was
      found and it has warnings. */
  predicate Prompts(env: RunEnv) {
    env.repoRoot.Some? && |env.warnings| > 0
  }

  /** `run_pipeline`. `sent` lists the HTTP requests made and `echoed` the
      warning and prompt lines shown. */
  method HandleRun(alias: string, branch: Option<string>, commit: Option<string>, env: RunEnv)
    returns (outcome: RunOutcome, sent: seq<Request>, echoed: seq<string>)
    ensures Prompts(env) ==> echoed == Console.WarningLines(env.warnings) + [Console.PromptLine]
    ensures !Prompts(env) ==> echoed == []
    ensures Prompts(env) && env.answer == Interrupt ==> outcome == Aborted && sent == []
    ensures !(Prompts(env) && env.answer == Interrupt) ==>
              var request := StartRequest(alias, RunPayload(branch, commit), env.apiKey);
              sent == [request] && outcome == RunResponse(env.server(request))
    ensures ExitCode(outcome) == 0 ==> |sent| == 1 && var h := env.server(sent[0]);
                                       h.Response? && IsSuccessStatus(h.status)
  {
    echoed := [];
    sent := [];
    if env.repoRoot.Some? {
      if |env.warnings| > 0 {
        echoed := Console.EchoWarnings(env.warnings);
        echoed := echoed + [Console.PromptLine];
        if env.answer == Interrupt {
          return Aborted, sent, echoed;
        }
      }
    }
    var payload := BuildRunPayload(branch, commit);
    var request := StartRequest(alias, payload, env.apiKey);
    sent := sent + [request];
    outcome := RunResponse(env.server(request));
  }
}
