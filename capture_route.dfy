/**
 * The scan route `POST /api/savePhoto` (app/api/savePhoto/route.js): run the capture
 * script, read the image file name it prints, have the file recognised, attach the
 * file name to the recognised JSON as `path`, and answer 200 with it; any failure on
 * the way answers 400 with `{ "error": "Invalid request" }`.
 *
 * The request body arrives already parsed (None when it is not JSON); the script's
 * outcome (error, stdout, stderr) is an input, since the command it runs is outside
 * the model; the recognition step is the parameter `extract`, which the pipeline
 * module instantiates with the cleaning and parsing step.
 */
module CaptureRoute {
  import opened Common
  import opened Json
  import JsString

  /** What the `exec` callback receives. */
  datatype ExecOutcome = ExecOutcome(error: Option<string>, stdout: string, stderr: string)

  /** The directory prefix put before the printed file name, with Windows separators. */
  const ScanDirectory: string := "public\\scanned\\"

  const InvalidRequestBody: JsonValue := JObject(map["error" := JString("Invalid request")])

  /**
   * `saveImage`: an exec error rejects with its message, any text on stderr rejects
   * with that text, and otherwise the printed path, trimmed, is the result.
   */
  function SaveImage(run: ExecOutcome): (r: Result<string, Error>)
    ensures r.Success? <==> run.error.None? && run.stderr == []
    ensures run.error.Some? ==> r == Failure(ExecFailed(run.error.value))
    ensures run.error.None? && run.stderr != [] ==> r == Failure(StderrWritten(run.stderr))
    ensures r.Success? ==> JsString.Tight(r.value) && |r.value| <= |run.stdout|
    ensures r.Success? ==> exists lead | 0 <= lead <= |run.stdout| - |r.value| ::
      run.stdout[lead..lead + |r.value|] == r.value
      && JsString.AllWhitespace(run.stdout[..lead]) && JsString.AllWhitespace(run.stdout[lead + |r.value|..])
  {
    match run.error
    case Some(message) => Failure(ExecFailed(message))
    case None =>
      if run.stderr != [] then Failure(StderrWritten(run.stderr))
      else
        var path := JsString.Trim(run.stdout);
        ghost var lead := JsString.TrimStartIndex(run.stdout);
        assert run.stdout[lead..lead + |path|] == path;
        Success(path)
  }

  /**
   * `resJson['path'] = name` followed by serialisation: an object gains (or overwrites)
   * the member `path` and keeps every other member; on an array the property is set but
   * not serialised, so the value is unchanged; on null, a boolean, a number or a string
   * the assignment throws a TypeError (module code is strict).
   */
  function AttachPath(v: JsonValue, name: string): (r: Result<JsonValue, Error>)
    ensures r.Success? <==> v.JObject? || v.JArray?
    ensures r.Failure? ==> r.error == PathNotAssignable
    ensures v.JArray? ==> r == Success(v)
    ensures v.JObject? ==>
      && r.Success? && r.value.JObject?
      && r.value.members.Keys == v.members.Keys + {"path"}
      && r.value.members["path"] == JString(name)
      && forall k | k in v.members && k != "path" :: r.value.members[k] == v.members[k]
  {
    match v
    case JObject(members) => Success(JObject(members["path" := JString(name)]))
    case JArray(_) => Success(v)
    case _ => Failure(PathNotAssignable)
  }

  /** `await req.json()` then `body.chequeNum`: a body that is not JSON, or is `null`, throws. */
  predicate BodyAccepted(body: Option<JsonValue>) {
    body.Some? && !body.value.JNull?
  }

  /**
   * Everything up to the reply: the recognised JSON with its path attached, or the
   * failure of the first step that fails (body, script, recognition, attachment).
   */
  function Handle(body: Option<JsonValue>, run: ExecOutcome, extract: string -> Result<JsonValue, Error>): (r: Result<JsonValue, Error>)
    ensures r.Success? ==> BodyAccepted(body) && SaveImage(run).Success?
    ensures r.Success? ==> extract(ScanDirectory + SaveImage(run).value).Success?
    ensures r.Success? ==> AttachPath(extract(ScanDirectory + SaveImage(run).value).value, SaveImage(run).value) == r
    ensures !BodyAccepted(body) ==> r == Failure(BadRequestBody)
    ensures BodyAccepted(body) && SaveImage(run).Failure? ==> r == Failure(SaveImage(run).error)
    ensures BodyAccepted(body) && SaveImage(run).Success? ==>
      var json := extract(ScanDirectory + SaveImage(run).value);
      && (json.Failure? ==> r == Failure(json.error))
      && (json.Success? ==> r == AttachPath(json.value, SaveImage(run).value))
  {
    if !BodyAccepted(body) then Failure(BadRequestBody)
    else
      match SaveImage(run)
      case Failure(e) => Failure(e)
      case Success(name) =>
        match extract(ScanDirectory + name)
        case Failure(e) => Failure(e)
        case Success(json) => AttachPath(json, name)
  }

  /**
   * `POST(req)`: 200 with the attached JSON when every step succeeds, and 400 with the
   * fixed error body when any step throws.
   */
  function Post(body: Option<JsonValue>, run: ExecOutcome, extract: string -> Result<JsonValue, Error>): (r: Reply)
    ensures r.status == 200 || r.status == 400
    ensures r.status == 400 <==> Handle(body, run, extract).Failure?
    ensures r.status == 400 ==> r.body == InvalidRequestBody
    ensures r.status == 200 ==> r.body == Handle(body, run, extract).value
  {
    match Handle(body, run, extract)
    case Success(json) => Reply(200, json)
    case Failure(_) => Reply(400, InvalidRequestBody)
  }

  /**
   * A 200 reply means the script ran cleanly and, when the recognised value is an
   * object, carries the trimmed script output under `path` next to the recognised members.
   */
  lemma OkReplyCarriesPath(body: Option<JsonValue>, run: ExecOutcome, extract: string -> Result<JsonValue, Error>)
    requires Post(body, run, extract).status == 200
    ensures run.error.None? && run.stderr == [] && BodyAccepted(body)
    ensures var json := extract(ScanDirectory + JsString.Trim(run.stdout));
      && json.Success? && (json.value.JObject? || json.value.JArray?)
      && (json.value.JObject? ==>
            && Post(body, run, extract).body.JObject?
            && Post(body, run, extract).body.members["path"] == JString(JsString.Trim(run.stdout))
            && forall k | k in json.value.members && k != "path" ::
                 Post(body, run, extract).body.members[k] == json.value.members[k])
      && (json.value.JArray? ==> Post(body, run, extract).body == json.value)
  {
    assert SaveImage(run).value == JsString.Trim(run.stdout);
  }

  /** Any failing step, whichever it is, gives the same 400 reply. */
  lemma FailuresAnswer400(body: Option<JsonValue>, run: ExecOutcome, extract: string -> Result<JsonValue, Error>)
    requires || !BodyAccepted(body)
             || run.error.Some? || run.stderr != []
             || extract(ScanDirectory + JsString.Trim(run.stdout)).Failure?
             || (var json := extract(ScanDirectory + JsString.Trim(run.stdout)).value;
                 !json.JObject? && !json.JArray?)
    ensures Post(body, run, extract) == Reply(400, InvalidRequestBody)
  {
    if BodyAccepted(body) && run.error.None? && run.stderr == [] {
      assert SaveImage(run).value == JsString.Trim(run.stdout);
    }
  }
}
