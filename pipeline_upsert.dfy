/**
 * The helpers shared by `create` and `update`
 * (orchestra_cli/src/pipeline_upsert.py): the credential check, loading and
 * validating the YAML document, the request body, and reading the pipeline
 * id out of a success response.
 */
module PipelineUpsert {
  import opened Wrappers
  import opened Json
  import opened Http
  import ImportPipeline

  // ------------------------------------------------------------ api key

  /** Why a command stops before sending its request. */
  datatype UpsertFailure =
    | ApiKeyMissing
    | FileNotFound
    | InvalidYaml(error: string)
    | ValidationFailed(detail: Detail)

  /** `require_api_key`: the key unchanged, or a failure when it is unset or
      empty. */
  function RequireApiKey(apiKey: Option<string>): (r: Result<string, UpsertFailure>)
    ensures r.Success? <==> apiKey.Some? && apiKey.value != ""
    ensures r.Success? ==> r.value == apiKey.value
    ensures r.Failure? ==> r.error == ApiKeyMissing
  {
    if apiKey.None? || apiKey.value == "" then Failure(ApiKeyMissing) else Success(apiKey.value)
  }

  /** A key that passes the check is exactly the credential the other
      commands attach when it is set. */
  lemma RequiredKeyIsBearer(apiKey: Option<string>)
    requires RequireApiKey(apiKey).Success?
    ensures BearerIfSet(apiKey) == Some(RequireApiKey(apiKey).value)
  {
  }

  // ------------------------------------------------- loading and schema

  /** `load_validated_pipeline_data`: file, then YAML, then the schema
      endpoint; the first failure stops the chain. The document is replaced
      by `{}` when it is falsy, both for validation and for the result. */
  function LoadValidatedPipelineData(fileExists: bool, yaml: ImportPipeline.YamlLoad,
                                     server: Request -> HttpOutcome): (r: Result<Value, UpsertFailure>)
    ensures r == Failure(FileNotFound) <==> !fileExists
    ensures (r.Failure? && r.error.InvalidYaml?) <==> fileExists && yaml.YamlError?
    ensures (r.Failure? && r.error.ValidationFailed?) <==>
              fileExists && yaml.Parsed?
              && ImportPipeline.ValidateYamlWithApi(OrEmpty(yaml.data), server).Invalid?
    ensures r.Success? ==> yaml.Parsed? && r.value == OrEmpty(yaml.data)
    ensures r.Success? ==> server(ImportPipeline.SchemaRequest(r.value)).Response?
                           && server(ImportPipeline.SchemaRequest(r.value)).status == 200
    ensures r != Failure(ApiKeyMissing)
  {
    if !fileExists then Failure(FileNotFound)
    else if yaml.YamlError? then Failure(InvalidYaml(yaml.message))
    else
      var data := OrEmpty(yaml.data);
      match ImportPipeline.ValidateYamlWithApi(data, server)
      case Invalid(detail) => Failure(ValidationFailed(detail))
      case Valid => Success(data)
  }

  /** The loaded document is never falsy: an empty file comes back as `{}`. */
  lemma LoadedDataIsTruthyOrEmpty(fileExists: bool, yaml: ImportPipeline.YamlLoad,
                                  server: Request -> HttpOutcome)
    requires LoadValidatedPipelineData(fileExists, yaml, server).Success?
    ensures var data := LoadValidatedPipelineData(fileExists, yaml, server).value;
            Truthy(data) || data == EmptyObject
  {
  }

  /** `import-pipeline` runs the same first three checks, in the same order,
      on the same document. */
  lemma ImportSharesLoading(alias: string, env: ImportPipeline.ImportEnv)
    ensures var load := LoadValidatedPipelineData(env.fileExists, env.yaml, env.server);
            var plan := ImportPipeline.ImportPlan(alias, env);
            (load == Failure(FileNotFound) <==> plan == Failure(ImportPipeline.FileNotFound))
            && (load.Failure? && load.error.InvalidYaml? <==> plan.Failure? && plan.error.InvalidYaml?)
            && (load.Failure? && load.error.ValidationFailed? <==>
                plan.Failure? && plan.error.ValidationFailed?)
            && (load.Success? <==> ImportPipeline.SchemaAccepted(env))
  {
  }

  // ----------------------------------------------------------- payload

  /** `build_upsert_payload`: the document and the publish flag unchanged,
      the storage provider fixed to `ORCHESTRA`, and `alias` exactly when one
      is given, even an empty one. */
  function BuildUpsertPayload(data: Value, publish: bool, alias: Option<string>): (v: Value)
    ensures v.Object?
    ensures v.fields.Keys == {"data", "published", "storage_provider"}
                             + (if alias.Some? then {"alias"} else {})
    ensures v.fields["data"] == data && v.fields["published"] == Bool(publish)
    ensures v.fields["storage_provider"] == Str("ORCHESTRA")
    ensures alias.Some? ==> v.fields["alias"] == Str(alias.value)
  {
    var payload := map["data" := data, "published" := Bool(publish),
                        "storage_provider" := Str("ORCHESTRA")];
    if alias.Some? then Object(payload["alias" := Str(alias.value)]) else Object(payload)
  }

  /** Giving an alias adds that one key and changes nothing else. */
  lemma AliasOnlyAddsAlias(data: Value, publish: bool, alias: string)
    ensures BuildUpsertPayload(data, publish, Some(alias)).fields - {"alias"}
            == BuildUpsertPayload(data, publish, None).fields
  {
    var withAlias := BuildUpsertPayload(data, publish, Some(alias)).fields - {"alias"};
    var without := BuildUpsertPayload(data, publish, None).fields;
    assert withAlias.Keys == without.Keys;
  }

  /** The bodies `create` and `update` send for the same document: `update`
      passes no alias. */
  lemma CreateAndUpdateBodies(data: Value)
    ensures BuildUpsertPayload(data, false, Some("demo"))
            == Object(map["alias" := Str("demo"), "data" := data, "published" := Bool(false),
                          "storage_provider" := Str("ORCHESTRA")])
    ensures BuildUpsertPayload(data, true, None)
            == Object(map["data" := data, "published" := Bool(true),
                          "storage_provider" := Str("ORCHESTRA")])
  {
  }

  // ------------------------------------------------ id from the response

  /** What `require_pipeline_id_from_success_response` makes of a success
      response. */
  datatype IdOutcome =
    | PipelineId(id: Value)     // `str(id)` is returned
    | NotJson(text: string)     // exit 1: the body was not JSON
    | MissingId(body: Value)    // exit 1: `id` absent or falsy
    | BodyNotAnObject           // the JSON is not a dict: `.get` raises

  /** Only `id` is consulted; it must be present and truthy. */
  function RequirePipelineIdFromSuccessResponse(json: Option<Value>, text: string): (r: IdOutcome)
    ensures r.PipelineId? <==> json.Some? && json.value.Object? && Truthy(Get(json.value.fields, "id"))
    ensures r.PipelineId? ==> r.id == json.value.fields["id"]
    ensures r == NotJson(text) <==> json.None?
    ensures r == BodyNotAnObject <==> json.Some? && !json.value.Object?
  {
    match json
    case None => NotJson(text)
    case Some(body) =>
      if !body.Object? then BodyNotAnObject
      else
        var id := Get(body.fields, "id");
        if Truthy(id) then PipelineId(id) else MissingId(body)
  }

  /** Two object bodies that agree on `id` yield the same id: no other key
      (`pipeline_id` included) is consulted. */
  lemma OnlyIdConsulted(a: map<string, Value>, b: map<string, Value>, text: string)
    requires Get(a, "id") == Get(b, "id")
    ensures RequirePipelineIdFromSuccessResponse(Some(Object(a)), text).PipelineId?
            == RequirePipelineIdFromSuccessResponse(Some(Object(b)), text).PipelineId?
    ensures RequirePipelineIdFromSuccessResponse(Some(Object(a)), text).PipelineId? ==>
              RequirePipelineIdFromSuccessResponse(Some(Object(a)), text)
              == RequirePipelineIdFromSuccessResponse(Some(Object(b)), text)
  {
  }
}
