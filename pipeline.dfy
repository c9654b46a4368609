/**
 * The scan path end to end: `handlePhotoChange(id)` posts `{ chequeNum: id }` to the
 * route, the route runs the capture script and the cleaning and parsing step, and the
 * page merges the 200 reply into the ledger or leaves it alone on any other outcome.
 *
 * The recognition service's upload and generation calls are the parameter `remote`
 * (the response text for an image path, or the failure); `JSON.parse` is `parse`.
 */
module Pipeline {
  import opened Common
  import opened Json
  import JsString
  import Sanitizer
  import CaptureRoute
  import Ledger

  /** `getChequeInfo` with the service calls given as `remote`. */
  function Extractor(remote: string -> Result<string, Error>, parse: string -> Option<JsonValue>): string -> Result<JsonValue, Error> {
    (p: string) => Sanitizer.GetChequeInfo(remote(p), parse)
  }

  /** The body `scanCheque(id)` posts. */
  function ScanRequest(id: string): Option<JsonValue> {
    Some(JObject(map["chequeNum" := JString(id)]))
  }

  /** The reply the page receives for a scan of row `id`. */
  function ScanReply(id: string, run: CaptureRoute.ExecOutcome, remote: string -> Result<string, Error>,
                     parse: string -> Option<JsonValue>): Option<Reply> {
    Some(CaptureRoute.Post(ScanRequest(id), run, Extractor(remote, parse)))
  }

  /** A response text that parses to a value is what the extractor yields. */
  lemma ExtractorYields(remote: string -> Result<string, Error>, parse: string -> Option<JsonValue>,
                        path: string, text: string, v: JsonValue)
    requires remote(path) == Success(text)
    requires parse(Sanitizer.Clean(text)) == Some(v)
    ensures Extractor(remote, parse)(path) == Success(v)
  {
  }

  /** The reply for a clean run whose image is recognised as an object. */
  lemma ObjectReply(id: string, run: CaptureRoute.ExecOutcome,
                    remote: string -> Result<string, Error>, parse: string -> Option<JsonValue>,
                    members: map<string, JsonValue>)
    requires run.error.None? && run.stderr == []
    requires Extractor(remote, parse)(CaptureRoute.ScanDirectory + JsString.Trim(run.stdout)) == Success(JObject(members))
    ensures ScanReply(id, run, remote, parse) == Some(Reply(200, JObject(members["path" := JString(JsString.Trim(run.stdout))])))
  {
    assert CaptureRoute.SaveImage(run) == Success(JsString.Trim(run.stdout));
  }

  /**
   * A clean script run whose image the service reads as a JSON object fills every row
   * with that id: the five text fields from the recognised members, the photo from the
   * trimmed script output; the row stays a draft or a saved row as it was, and every
   * other row is unchanged.
   */
  lemma ScanFillsRow(rows: seq<Ledger.Cheque>, id: string, run: CaptureRoute.ExecOutcome,
                     remote: string -> Result<string, Error>, parse: string -> Option<JsonValue>,
                     text: string, members: map<string, JsonValue>)
    requires run.error.None? && run.stderr == []
    requires remote(CaptureRoute.ScanDirectory + JsString.Trim(run.stdout)) == Success(text)
    requires parse(Sanitizer.Clean(text)) == Some(JObject(members))
    ensures var r := Ledger.ApplyScan(rows, id, ScanReply(id, run, remote, parse));
      && |r| == |rows|
      && (forall k | 0 <= k < |rows| && rows[k].id != id :: r[k] == rows[k])
      && forall k | 0 <= k < |rows| && rows[k].id == id ::
           && r[k].isNew == rows[k].isNew
           && r[k].photo == "/scanned/" + JsString.Trim(run.stdout)
           && r[k].amount == Ledger.ScanText(JObject(members), "amount")
           && r[k].date == Ledger.ScanText(JObject(members), "date")
           && r[k].ownerName == Ledger.ScanText(JObject(members), "owner")
           && r[k].chequeNumber == Ledger.ScanText(JObject(members), "chequeNum")
           && r[k].bankName == Ledger.ScanText(JObject(members), "BankName")
  {
    var name := JsString.Trim(run.stdout);
    ExtractorYields(remote, parse, CaptureRoute.ScanDirectory + name, text, JObject(members));
    ObjectReply(id, run, remote, parse, members);
    MergeAttached(rows, id, members, name);
  }

  /** Merging an object with `path` attached takes the text fields from the object and the photo from the path. */
  lemma MergeAttached(rows: seq<Ledger.Cheque>, id: string, members: map<string, JsonValue>, name: string)
    ensures var r := Ledger.ApplyScan(rows, id, Some(Reply(200, JObject(members["path" := JString(name)]))));
      && |r| == |rows|
      && (forall k | 0 <= k < |rows| && rows[k].id != id :: r[k] == rows[k])
      && forall k | 0 <= k < |rows| && rows[k].id == id ::
           && r[k].isNew == rows[k].isNew
           && r[k].photo == "/scanned/" + name
           && r[k].amount == Ledger.ScanText(JObject(members), "amount")
           && r[k].date == Ledger.ScanText(JObject(members), "date")
           && r[k].ownerName == Ledger.ScanText(JObject(members), "owner")
           && r[k].chequeNumber == Ledger.ScanText(JObject(members), "chequeNum")
           && r[k].bankName == Ledger.ScanText(JObject(members), "BankName")
  {
    var body := JObject(members["path" := JString(name)]);
    assert Ledger.ScanPhoto(body) == "/scanned/" + name;
    forall key | key in {"amount", "date", "owner", "chequeNum", "BankName"}
      ensures Ledger.ScanText(body, key) == Ledger.ScanText(JObject(members), key)
    {
      assert key != "path";
    }
  }

  /**
   * Whatever fails along the way (the script, the service, the parse, or a recognised
   * value that is neither an object nor an array) leaves the ledger exactly as it was.
   */
  lemma ScanFailureKeepsLedger(rows: seq<Ledger.Cheque>, id: string, run: CaptureRoute.ExecOutcome,
                               remote: string -> Result<string, Error>, parse: string -> Option<JsonValue>)
    requires || run.error.Some? || run.stderr != []
             || remote(CaptureRoute.ScanDirectory + JsString.Trim(run.stdout)).Failure?
             || (var text := remote(CaptureRoute.ScanDirectory + JsString.Trim(run.stdout)).value;
                 || parse(Sanitizer.Clean(text)).None?
                 || (!parse(Sanitizer.Clean(text)).value.JObject? && !parse(Sanitizer.Clean(text)).value.JArray?))
    ensures Ledger.ApplyScan(rows, id, ScanReply(id, run, remote, parse)) == rows
  {
    var extract := Extractor(remote, parse);
    var path := CaptureRoute.ScanDirectory + JsString.Trim(run.stdout);
    if run.error.None? && run.stderr == [] && remote(path).Success? {
      assert extract(path) == Sanitizer.GetChequeInfo(remote(path), parse);
    }
    CaptureRoute.FailuresAnswer400(ScanRequest(id), run, extract);
  }

  /**
   * The fence the service tends to add around its answer does not matter: a fenced and
   * an unfenced response give the page the same reply.
   */
  lemma FencedResponseSameReply(id: string, run: CaptureRoute.ExecOutcome, j: string,
                                remote: string -> Result<string, Error>, remoteFenced: string -> Result<string, Error>,
                                parse: string -> Option<JsonValue>)
    requires Sanitizer.MarkerFree(j) && JsString.Tight(j)
    requires remote(CaptureRoute.ScanDirectory + JsString.Trim(run.stdout)) == Success(j)
    requires remoteFenced(CaptureRoute.ScanDirectory + JsString.Trim(run.stdout))
             == Success(Sanitizer.JsonFence + j + "\n" + Sanitizer.Fence)
    ensures ScanReply(id, run, remoteFenced, parse) == ScanReply(id, run, remote, parse)
  {
    var path := CaptureRoute.ScanDirectory + JsString.Trim(run.stdout);
    SameExtraction(path, j, remote, remoteFenced, parse);
    if run.error.None? && run.stderr == [] {
      assert CaptureRoute.SaveImage(run).value == JsString.Trim(run.stdout);
    }
  }

  lemma SameExtraction(path: string, j: string, remote: string -> Result<string, Error>,
                       remoteFenced: string -> Result<string, Error>, parse: string -> Option<JsonValue>)
    requires Sanitizer.MarkerFree(j) && JsString.Tight(j)
    requires remote(path) == Success(j)
    requires remoteFenced(path) == Success(Sanitizer.JsonFence + j + "\n" + Sanitizer.Fence)
    ensures Extractor(remoteFenced, parse)(path) == Extractor(remote, parse)(path)
  {
    Sanitizer.DecorationIsTransparent(j, parse);
  }
}
