/**
 * The upload widget's logic: pre-validation of a chosen file, the first-file rule for drops and
 * file inputs, and how the upload request's response becomes a success or an error.
 */
module UploadClient {
  import opened Common
  import opened Strings
  import Routes

  /** The widget's own size limit, written out independently of the server's. */
  const ClientMaxFileSize: nat := 10 * 1024 * 1024

  /** A browser `File`: its name, its MIME `type` (possibly empty) and its size in bytes. */
  datatype BrowserFile = BrowserFile(name: string, mimeType: string, size: nat)

  /** What choosing a file leads to: one of two refusal toasts, or exactly one upload. */
  datatype Selection = InvalidFile | FileTooLarge | Upload(file: BrowserFile)

  /** `handleFileSelect`: the type test first, then the size test, then the upload. */
  function HandleFileSelect(f: BrowserFile): (r: Selection)
    ensures !StartsWith(f.mimeType, "image/") ==> r == InvalidFile
    ensures StartsWith(f.mimeType, "image/") && f.size > ClientMaxFileSize ==> r == FileTooLarge
    ensures r.Upload? <==> StartsWith(f.mimeType, "image/") && f.size <= ClientMaxFileSize
    ensures r.Upload? ==> r.file == f
  {
    if !StartsWith(f.mimeType, "image/") then InvalidFile
    else if f.size > ClientMaxFileSize then FileTooLarge
    else Upload(f)
  }

  /** `handleDrop`: only the first dropped file is considered; an empty drop does nothing. */
  function HandleDrop(files: seq<BrowserFile>): (r: Option<Selection>)
    ensures r.None? <==> |files| == 0
    ensures r.Some? ==> r.value == HandleFileSelect(files[0])
  {
    if |files| > 0 then Some(HandleFileSelect(files[0])) else None
  }

  /** `handleFileInputChange`: like a drop, and a missing file list also does nothing. */
  function HandleFileInputChange(files: Option<seq<BrowserFile>>): (r: Option<Selection>)
    ensures r.None? <==> files.None? || |files.value| == 0
    ensures r.Some? ==> r.value == HandleFileSelect(files.value[0])
  {
    match files
    case None => None
    case Some(fs) => HandleDrop(fs)
  }

  /** A file the widget uploads is one the server's middleware accepts. */
  lemma ClientAcceptanceImpliesServer(f: BrowserFile)
    requires HandleFileSelect(f).Upload?
    ensures Routes.CheckUpload(Routes.FilePart(f.mimeType, f.name, f.size)).None?
  {
  }

  /** The two checks agree exactly: the server refuses nothing the widget would send. */
  lemma ClientAndServerAgree(f: BrowserFile)
    ensures HandleFileSelect(f).Upload? <==> Routes.CheckUpload(Routes.FilePart(f.mimeType, f.name, f.size)).None?
  {
  }

  /**
   * The part of a `fetch` response the mutation reads: the status, the body text, and whether
   * that body parses as JSON. The upload route's `res.json(undefined)` sends an empty body,
   * which does not.
   */
  datatype FetchResponse = FetchResponse(status: nat, text: string, bodyIsJson: bool)

  /** How the upload mutation settles. */
  datatype MutationOutcome =
    | Succeeded(invalidated: seq<string>)   // the query keys invalidated on success
    | Failed(message: string)               // the message of the error the mutation rejects with

  /** `response.ok`: a 2xx status. */
  predicate Ok(status: nat)
  {
    200 <= status <= 299
  }

  /**
   * The mutation: a non-OK response throws an error whose message is the status, a colon and
   * the response text; an OK response whose body is not JSON rejects in `response.json()` with
   * the runtime's parse error, whose message `parseError` stands for; otherwise it succeeds and
   * invalidates the image-list query.
   */
  function SettleUpload(resp: FetchResponse, parseError: string): (r: MutationOutcome)
    ensures r.Succeeded? <==> Ok(resp.status) && resp.bodyIsJson
    ensures r.Succeeded? ==> r.invalidated == ["/api/images"]
    ensures Ok(resp.status) && !resp.bodyIsJson ==> r == Failed(parseError)
    ensures !Ok(resp.status) ==> r.Failed? && StartsWith(r.message, NatToString(resp.status) + ": ")
    ensures !Ok(resp.status) ==> r.message[|NatToString(resp.status)| + 2..] == resp.text
  {
    if !Ok(resp.status) then
      var m := NatToString(resp.status) + ": " + resp.text;
      assert m[..|NatToString(resp.status) + ": "|] == NatToString(resp.status) + ": ";
      Failed(m)
    else if !resp.bodyIsJson then Failed(parseError)
    else Succeeded(["/api/images"])
  }

  /** The status can be read back from the front of a failure message. */
  lemma FailureMessageCarriesStatus(resp: FetchResponse, parseError: string)
    requires !Ok(resp.status)
    ensures var m := SettleUpload(resp, parseError).message;
      exists k :: 0 < k <= |m| && (forall i :: 0 <= i < k ==> '0' <= m[i] <= '9')
                 && ParseDigits(m[..k]) == resp.status
  {
    var d := NatToString(resp.status);
    var m := SettleUpload(resp, parseError).message;
    assert m[..|d|] == d;
    NatToStringRoundTrip(resp.status);
  }
}
